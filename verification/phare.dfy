/** The Phare resource and the objects it asks for. */
module Phares {
  import opened Options
  import opened WorkloadMerge
  import W = Workloads
  import S = ServiceSpecs

  datatype Phase = NoPhase | Reconciling | Active | Failed

  datatype Status = Status(phase: Phase, message: string)

  datatype RouteKind = HTTPRoute | GCPBackendPolicy | HealthCheckPolicy

  datatype MicroService = MicroService(
    kind: string, replicaCount: int, repository: string, tag: string, env: seq<string>, mounts: seq<Mount>,
    livenessProbe: Option<Probe>, extraContainers: seq<Container>,
    initContainers: Option<seq<Container>>, volumes: Option<seq<Volume>>,
    tolerations: seq<string>, affinity: Option<string>, claims: seq<string>,
    podLabels: map<string, string>, podAnnotations: map<string, string>)

  /** `routes` holds the specs of the three optional toolchain resources that are present. */
  datatype ToolChain = ToolChain(config: Option<map<string, string>>, routes: map<RouteKind, string>)

  /** `version` stands for the metadata that a status write changes (the resource version,
      the managed fields), `rest` for the metadata that no write of the controller changes. */
  datatype Phare = Phare(
    name: string, uid: string, labels: map<string, string>, annotations: map<string, string>,
    rest: string, version: string,
    microservice: MicroService, service: Option<S.ServiceSpec>, toolChain: Option<ToolChain>, status: Status)

  /** The metadata that templates may refer to. */
  datatype Meta = Meta(
    name: string, uid: string, labels: map<string, string>, annotations: map<string, string>,
    rest: string, version: string)

  function MetaOf(p: Phare): Meta {
    Meta(p.name, p.uid, p.labels, p.annotations, p.rest, p.version)
  }

  type Renderer = (string, Meta) -> Option<string>

  // ---------- the ConfigMap ----------

  function Config(p: Phare): Option<map<string, string>> {
    match p.toolChain
    case None => None
    case Some(t) => t.config
  }

  /** Mounted and hashed only when it is there and not empty. */
  predicate HasConfig(p: Phare) {
    Config(p).Some? && |Config(p).value| > 0
  }

  /** Every value rendered; a template that fails to render is kept as written. */
  function Rendered(config: map<string, string>, render: Renderer, p: Phare): map<string, string> {
    map k | k in config :: match render(config[k], MetaOf(p)) case Some(text) => text case None => config[k]
  }

  method GenerateData(config: map<string, string>, render: Renderer, p: Phare) returns (data: map<string, string>)
    ensures data == Rendered(config, render, p)
  {
    data := config;
    var left := config.Keys;
    while left != {}
      invariant left <= config.Keys && data.Keys == config.Keys
      invariant forall k :: k in config ==> data[k] == if k in left then config[k] else Rendered(config, render, p)[k]
      decreases left
    {
      var key :| key in left;
      left := left - {key};
      var processed := render(config[key], MetaOf(p));
      match processed {
        case None =>
        case Some(text) => data := data[key := text];
      }
    }
  }

  // ---------- metadata ----------

  const CREATED_BY := "app.kubernetes.io/created-by"
  const REALLOCATE := "phare.localcorp.internal/reallocate-nodeport"

  function MetadataLabels(p: Phare): map<string, string> {
    map["app" := p.name, CREATED_BY := "phare-controller"]
  }

  // ---------- the Service ----------

  /** Lower case for ASCII.  No other letter has an ASCII lower case that occurs in the words
      the annotation is compared with. */
  function LowerChar(c: char): char {
    if 'A' <= c <= 'Z' then (c as int + 32) as char else c
  }

  function Lower(s: string): string {
    if s == "" then "" else [LowerChar(s[0])] + Lower(s[1..])
  }

  /** White space in Unicode's sense. */
  predicate Space(c: char) {
    || 0x09 <= c as int <= 0x0D || c as int in {0x20, 0x85, 0xA0, 0x1680, 0x2028, 0x2029, 0x202F, 0x205F, 0x3000}
    || 0x2000 <= c as int <= 0x200A
  }

  function Trim(s: string): string {
    if s == "" then ""
    else if Space(s[0]) then Trim(s[1..])
    else if Space(s[|s|-1]) then Trim(s[..|s|-1])
    else s
  }

  predicate ShouldReallocateNodePorts(p: Phare) {
    REALLOCATE in p.annotations && Lower(Trim(p.annotations[REALLOCATE])) in {"1", "true", "yes", "on"}
  }

  function ServiceLabels(p: Phare): map<string, string> {
    MetadataLabels(p) + p.labels
  }

  function ServiceAnnotations(p: Phare): map<string, string> {
    p.annotations - {REALLOCATE}
  }

  function DesiredServiceSpec(p: Phare, spec: S.ServiceSpec): S.ServiceSpec {
    spec.(kind := if spec.kind == "" then "ClusterIP" else spec.kind, selector := map["app" := p.name])
  }

  // ---------- the toolchain routes ----------

  function RouteSpec(p: Phare, k: RouteKind): Option<string> {
    match p.toolChain
    case None => None
    case Some(t) => if k in t.routes then Some(t.routes[k]) else None
  }

  /** The labels that reading a desired object back gives.  The two policies are built as
      untyped objects, and the label map put into them is not of the type that the reading
      function expects, so it reads no labels at all. */
  function ReadBackLabels(p: Phare, k: RouteKind): map<string, string> {
    if k.HTTPRoute? then MetadataLabels(p) else map[]
  }

  // ---------- the workload ----------

  const MODE := 420

  function WithMode(v: Volume): Volume {
    match v.source
    case SecretSource(secret, _) => v.(source := SecretSource(secret, MODE))
    case ConfigMapSource(configMap, _) => v.(source := ConfigMapSource(configMap, MODE))
    case OtherSource(_) => v
  }

  function WithModes(vs: seq<Volume>): (r: seq<Volume>)
    ensures |r| == |vs| && forall i :: 0 <= i < |vs| ==> r[i] == WithMode(vs[i])
  {
    seq(|vs|, i requires 0 <= i < |vs| => WithMode(vs[i]))
  }

  function ConfigVolume(p: Phare): Volume {
    Volume("config-volume", ConfigMapSource(p.name + "-config", MODE))
  }

  const CONFIG_MOUNT := Mount("config-volume", "/etc/phare/config")

  function MainContainer(p: Phare): Container {
    var ms := p.microservice;
    Container(p.name, ms.repository + ":" + ms.tag, ms.env,
              (if HasConfig(p) then [CONFIG_MOUNT] else []) + ms.mounts, ms.livenessProbe, [], "", "")
  }

  /** Still nil when the Phare names no volumes and has no configuration. */
  function PodVolumes(p: Phare): Option<seq<Volume>> {
    var volumes := p.microservice.volumes;
    if HasConfig(p) then Some(WithModes([ConfigVolume(p)] + Elements(volumes)))
    else if volumes.Some? then Some(WithModes(volumes.value))
    else None
  }

  /** The workload before the checksum is added, or nothing when the probe path does not
      render. */
  function NewWorkloadSpec(p: Phare, stateful: bool, render: Renderer): Option<W.WorkloadSpec> {
    var ms := p.microservice;
    var main := MainContainer(p);
    match RenderedProbe(main.probe, render, p)
    case None => None
    case Some(probe) =>
      Some(W.WorkloadSpec(
        ms.replicaCount,
        W.Template(
          map["app" := p.name] + ms.podLabels, Some(ms.podAnnotations),
          W.PodSpec([main.(probe := probe)] + ms.extraContainers, ms.initContainers, PodVolumes(p),
                    ms.tolerations, ms.affinity, "")),
        if stateful then ms.claims else []))
  }

  function RenderedProbe(probe: Option<Probe>, render: Renderer, p: Phare): Option<Option<Probe>> {
    match probe
    case None => Some(None)
    case Some(pr) =>
      match render(pr.path, MetaOf(p))
      case None => None
      case Some(path) => Some(Some(pr.(path := path)))
  }

  /** Every name the Phare's containers mount or attach is one of its volumes, or the one
      that is added for its configuration. */
  predicate SelfContained(p: Phare) {
    OwnUses(p) <= VolumeNames(Elements(p.microservice.volumes)) + ConfigName(p)
  }

  function OwnUses(p: Phare): set<string> {
    var ms := p.microservice;
    (set i | 0 <= i < |ms.mounts| :: ms.mounts[i].name) +
    UsedBy(ms.extraContainers) + UsedBy(Elements(ms.initContainers))
  }

  function ConfigName(p: Phare): set<string> {
    if HasConfig(p) then {"config-volume"} else {}
  }

  /** The pod that is asked for mounts only volumes it has, if and only if the Phare does:
      the configuration volume and its mount are added together. */
  lemma NewPodIsClosed(p: Phare, stateful: bool, render: Renderer)
    requires NewWorkloadSpec(p, stateful, render).Some?
    ensures W.Closed(NewWorkloadSpec(p, stateful, render).value.template.spec) <==> SelfContained(p)
  {
    NewPodUses(p, stateful, render);
    PodVolumeNames(p);
  }

  lemma NewPodUses(p: Phare, stateful: bool, render: Renderer)
    requires NewWorkloadSpec(p, stateful, render).Some?
    ensures W.Used(NewWorkloadSpec(p, stateful, render).value.template.spec) == ConfigName(p) + OwnUses(p)
  {
    var containers := NewWorkloadSpec(p, stateful, render).value.template.spec.containers;
    assert containers[1..] == p.microservice.extraContainers;
    assert UsedBy(containers) == Uses(containers[0]) + UsedBy(containers[1..]);
    MainUses(p);
    assert Uses(containers[0]) == Uses(MainContainer(p));
  }

  lemma MainUses(p: Phare)
    ensures Uses(MainContainer(p)) == ConfigName(p) +
      set i | 0 <= i < |p.microservice.mounts| :: p.microservice.mounts[i].name
  {
    var mounts, added := p.microservice.mounts, if HasConfig(p) then [CONFIG_MOUNT] else [];
    var c := MainContainer(p);
    forall i | 0 <= i < |mounts| ensures mounts[i].name in Uses(c) {
      assert c.mounts[|added| + i] == mounts[i];
    }
    if HasConfig(p) {
      assert c.mounts[0] == CONFIG_MOUNT;
    }
  }

  lemma PodVolumeNames(p: Phare)
    ensures VolumeNames(Elements(PodVolumes(p))) == ConfigName(p) + VolumeNames(Elements(p.microservice.volumes))
  {
    var all := Elements(PodVolumes(p));
    var vs, added := Elements(p.microservice.volumes), if HasConfig(p) then [ConfigVolume(p)] else [];
    forall i | 0 <= i < |vs| ensures vs[i].name in VolumeNames(all) {
      assert all[|added| + i] == WithMode(vs[i]);
    }
    if HasConfig(p) {
      assert all[0] == WithMode(ConfigVolume(p));
    }
  }

  const CHECKSUM := "checksum/config-files"

  function WithChecksum(w: W.WorkloadSpec, checksum: string): W.WorkloadSpec {
    w.(template := w.template.(annotations := Some(W.Pairs(w.template.annotations)[CHECKSUM := checksum])))
  }

  /** Builds the workload the way newDeployment and newStatefulSet do, changing the template
      step by step. */
  method NewWorkload(p: Phare, stateful: bool, render: Renderer) returns (w: Option<W.WorkloadSpec>)
    ensures w == NewWorkloadSpec(p, stateful, render)
  {
    var ms := p.microservice;
    var podLabels := map["app" := p.name] + ms.podLabels;
    var podAnnotations := ms.podAnnotations;
    var main := Container(p.name, ms.repository + ":" + ms.tag, ms.env, ms.mounts, ms.livenessProbe, [], "", "");
    var containers := [main] + ms.extraContainers;
    var volumes := ms.volumes;
    if HasConfig(p) {
      volumes := Some([ConfigVolume(p)] + Elements(volumes));
      containers := containers[0 := containers[0].(mounts := [CONFIG_MOUNT] + containers[0].mounts)];
    }
    ghost var unset := volumes;
    for i := 0 to |Elements(volumes)|
      invariant (volumes.Some? <==> unset.Some?) && |Elements(volumes)| == |Elements(unset)|
      invariant forall x :: 0 <= x < |Elements(volumes)| ==>
        Elements(volumes)[x] == if x < i then WithMode(Elements(unset)[x]) else Elements(unset)[x]
    {
      volumes := Some(volumes.value[i := WithMode(volumes.value[i])]);
    }
    assert Elements(volumes) == WithModes(Elements(unset));
    if containers[0].probe.Some? {
      var path := render(containers[0].probe.value.path, MetaOf(p));
      if path.None? {
        return None;
      }
      containers := containers[0 := containers[0].(probe := Some(containers[0].probe.value.(path := path.value)))];
    }
    assert volumes == PodVolumes(p);
    assert !HasConfig(p) ==> [] + ms.mounts == ms.mounts;
    assert containers == [containers[0]] + ms.extraContainers;
    w := Some(W.WorkloadSpec(
      ms.replicaCount,
      W.Template(podLabels, Some(podAnnotations),
                 W.PodSpec(containers, ms.initContainers, volumes, ms.tolerations, ms.affinity, "")),
      if stateful then ms.claims else []));
  }
}
