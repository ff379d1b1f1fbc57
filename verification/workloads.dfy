/** Deployments and StatefulSets: merging the desired object into the live one, and exactly
    when the result counts as drift. */
module Workloads {
  import opened Options
  import opened WorkloadMerge

  /** nil and empty are kept apart where the code itself turns one into the other. */
  datatype PodSpec = PodSpec(
    containers: seq<Container>, initContainers: Option<seq<Container>>, volumes: Option<seq<Volume>>,
    tolerations: seq<string>, affinity: Option<string>, unmanaged: string)

  datatype Template = Template(labels: map<string, string>, annotations: Option<map<string, string>>, spec: PodSpec)

  /** `claims` are a StatefulSet's volume claim templates: immutable, never patched. */
  datatype WorkloadSpec = WorkloadSpec(replicas: int, template: Template, claims: seq<string>)

  function Pairs(o: Option<map<string, string>>): map<string, string> {
    match o
    case None => map[]
    case Some(m) => m
  }

  function Used(spec: PodSpec): set<string> {
    UsedBy(spec.containers) + UsedBy(Elements(spec.initContainers))
  }

  // ---------- the merge ----------

  function MergedPod(existing: PodSpec, desired: PodSpec): PodSpec {
    var containers := MergedContainers(existing.containers, desired.containers);
    var initContainers := MergedContainers(Elements(existing.initContainers), Elements(desired.initContainers));
    var volumes := MergedVolumes(Elements(existing.volumes), Elements(desired.volumes),
                                 UsedBy(containers) + UsedBy(initContainers));
    PodSpec(containers, Some(initContainers), Some(volumes), desired.tolerations, desired.affinity, existing.unmanaged)
  }

  function Merged(desired: WorkloadSpec, existing: WorkloadSpec): WorkloadSpec {
    WorkloadSpec(desired.replicas,
                 Template(desired.template.labels, desired.template.annotations,
                          MergedPod(existing.template.spec, desired.template.spec)),
                 existing.claims)
  }

  /** Both merge functions of the source; the one for StatefulSets leaves the claim
      templates alone, and a Deployment has none. */
  method MergeWorkload(desired: WorkloadSpec, existing0: WorkloadSpec) returns (existing: WorkloadSpec)
    ensures existing == Merged(desired, existing0)
  {
    existing := existing0.(replicas := desired.replicas);
    var template := existing.template.(labels := desired.template.labels, annotations := desired.template.annotations);
    var spec, want := template.spec, desired.template.spec;
    var containers := MergeContainersPreservingUnknown(spec.containers, want.containers);
    spec := spec.(containers := containers);
    var initContainers := MergeContainersPreservingUnknown(
      Elements(spec.initContainers), Elements(want.initContainers));
    spec := spec.(initContainers := Some(initContainers));
    var volumes := MergeVolumesRespectingMountedNames(
      Elements(spec.volumes), Elements(want.volumes), spec.containers, Elements(spec.initContainers));
    spec := spec.(volumes := Some(volumes));
    spec := spec.(tolerations := want.tolerations);
    spec := spec.(affinity := want.affinity);
    existing := existing.(template := template.(spec := spec));
  }

  // ---------- the comparison that decides on a patch ----------

  predicate ProbesAlike(x: Option<Probe>, y: Option<Probe>) {
    (x.None? && y.None?) || (x.Some? && y.Some? && x.value.path == y.value.path)
  }

  /** Equal but for the ignored fields. */
  predicate Alike(x: Container, y: Container) {
    && x.name == y.name && x.image == y.image && x.env == y.env && x.mounts == y.mounts
    && ProbesAlike(x.probe, y.probe)
    && x.devices == y.devices && x.securityContext == y.securityContext
  }

  predicate AllAlike(xs: seq<Container>, ys: seq<Container>) {
    |xs| == |ys| && forall i :: 0 <= i < |xs| ==> Alike(xs[i], ys[i])
  }

  /** No difference reported: nil differs from empty, ignored fields do not count. */
  predicate NoDifference(x: WorkloadSpec, y: WorkloadSpec) {
    && x.replicas == y.replicas && x.claims == y.claims
    && x.template.labels == y.template.labels && x.template.annotations == y.template.annotations
    && AllAlike(x.template.spec.containers, y.template.spec.containers)
    && (x.template.spec.initContainers.Some? <==> y.template.spec.initContainers.Some?)
    && AllAlike(Elements(x.template.spec.initContainers), Elements(y.template.spec.initContainers))
    && x.template.spec.volumes == y.template.spec.volumes
    && x.template.spec.tolerations == y.template.spec.tolerations
    && x.template.spec.affinity == y.template.spec.affinity
    && x.template.spec.unmanaged == y.template.spec.unmanaged
  }

  // ---------- what it means to conform ----------

  predicate ManagedAlike(x: Container, want: Container) {
    x.image == want.image && x.env == want.env && x.mounts == want.mounts && ProbesAlike(x.probe, want.probe)
  }

  /** Every desired container runs, and the live ones that are desired run as desired. */
  predicate ContainersConform(desired: seq<Container>, live: seq<Container>) {
    && ContainerNames(desired) <= ContainerNames(live)
    && forall i :: 0 <= i < |live| ==>
        LastNamed(desired, live[i].name).Some? ==> ManagedAlike(live[i], LastNamed(desired, live[i].name).value)
  }

  /** Every desired volume is there as desired, and every other one is in use. */
  predicate VolumesConform(desired: seq<Volume>, live: seq<Volume>, used: set<string>) {
    && VolumeNames(desired) <= VolumeNames(live)
    && forall i :: 0 <= i < |live| ==>
        match LastVolume(desired, live[i].name)
        case Some(want) => live[i] == want
        case None => live[i].name in used
  }

  /** The live object is as the controller wants it, modulo ignored and unmanaged fields. */
  predicate Conforms(desired: WorkloadSpec, live: WorkloadSpec) {
    var want, has := desired.template.spec, live.template.spec;
    && live.replicas == desired.replicas
    && live.template.labels == desired.template.labels
    && Pairs(live.template.annotations) == Pairs(desired.template.annotations)
    && ContainersConform(want.containers, has.containers)
    && ContainersConform(Elements(want.initContainers), Elements(has.initContainers))
    && VolumesConform(Elements(want.volumes), Elements(has.volumes), Used(has))
    && has.tolerations == want.tolerations
    && has.affinity == want.affinity
  }

  /** Nothing in the live object is nil where the merge makes it an empty list or map. */
  predicate NilsAgree(desired: WorkloadSpec, live: WorkloadSpec) {
    && live.template.spec.initContainers.Some?
    && live.template.spec.volumes.Some?
    && (live.template.annotations.Some? <==> desired.template.annotations.Some?)
  }

  // ---------- no patch exactly when it conforms ----------

  lemma {:induction false} NotNamedEmpty(cs: seq<Container>, names: set<string>)
    ensures NotNamed(cs, names) == [] <==> ContainerNames(cs) <= names
  {
    if cs != [] {
      NotNamedEmpty(cs[1..], names);
      assert ContainerNames(cs) == {cs[0].name} + ContainerNames(cs[1..]) by {
        forall n ensures n in ContainerNames(cs) <==> n == cs[0].name || n in ContainerNames(cs[1..]) {
          if i :| 0 <= i < |cs| && cs[i].name == n {
            if i > 0 { assert cs[1..][i-1].name == n; }
          }
          if i :| 0 <= i < |cs[1..]| && cs[1..][i].name == n {
            assert cs[i+1].name == n;
          }
        }
      }
    }
  }

  lemma ContainersUnchangedIffConform(live: seq<Container>, desired: seq<Container>)
    ensures AllAlike(live, MergedContainers(live, desired)) <==> ContainersConform(desired, live)
  {
    NotNamedEmpty(desired, ContainerNames(live));
    var kept := MergedExisting(live, desired);
    forall i | 0 <= i < |live|
      ensures Alike(live[i], kept[i]) <==>
        (LastNamed(desired, live[i].name).Some? ==> ManagedAlike(live[i], LastNamed(desired, live[i].name).value))
    {}
    if NotNamed(desired, ContainerNames(live)) == [] {
      assert MergedContainers(live, desired) == kept;
    }
  }

  lemma {:induction false} UsedByAlike(xs: seq<Container>, ys: seq<Container>)
    requires AllAlike(xs, ys)
    ensures UsedBy(xs) == UsedBy(ys)
  {
    if xs != [] {
      assert Alike(xs[0], ys[0]);
      forall i | 0 <= i < |xs[1..]| ensures Alike(xs[1..][i], ys[1..][i]) {
        assert Alike(xs[i+1], ys[i+1]);
      }
      UsedByAlike(xs[1..], ys[1..]);
    }
  }

  lemma {:induction false} VolumesNotNamedEmpty(vs: seq<Volume>, names: set<string>)
    ensures VolumesNotNamed(vs, names) == [] <==> VolumeNames(vs) <= names
    ensures forall v :: v in VolumesNotNamed(vs, names) <==> v in vs && v.name !in names
  {
    if vs != [] {
      VolumesNotNamedEmpty(vs[1..], names);
      assert VolumeNames(vs) == {vs[0].name} + VolumeNames(vs[1..]) by {
        forall n ensures n in VolumeNames(vs) <==> n == vs[0].name || n in VolumeNames(vs[1..]) {
          if i :| 0 <= i < |vs| && vs[i].name == n {
            if i > 0 { assert vs[1..][i-1].name == n; }
          }
          if i :| 0 <= i < |vs[1..]| && vs[1..][i].name == n {
            assert vs[i+1].name == n;
          }
        }
      }
    }
  }

  lemma {:induction false} KeptVolumesUnchanged(live: seq<Volume>, desired: seq<Volume>, used: set<string>)
    ensures |KeptVolumes(live, desired, used)| <= |live|
    ensures KeptVolumes(live, desired, used) == live <==>
      forall i :: 0 <= i < |live| ==> VolumeStays(live[i], desired, used)
  {
    if live != [] {
      KeptVolumesUnchanged(live[1..], desired, used);
      var rest := KeptVolumes(live[1..], desired, used);
      if KeptVolumes(live, desired, used) == live {
        assert KeptVolumes(live, desired, used)[1..] == live[1..];
        forall i | 0 <= i < |live| ensures VolumeStays(live[i], desired, used) {
          if i > 0 { assert VolumeStays(live[1..][i-1], desired, used); }
        }
      }
      if forall i :: 0 <= i < |live| ==> VolumeStays(live[i], desired, used) {
        assert VolumeStays(live[0], desired, used);
        forall i | 0 <= i < |live[1..]| ensures VolumeStays(live[1..][i], desired, used) {
          assert VolumeStays(live[i+1], desired, used);
        }
        assert [live[0]] + live[1..] == live;
      }
    }
  }

  predicate VolumeStays(v: Volume, desired: seq<Volume>, used: set<string>) {
    match LastVolume(desired, v.name)
    case Some(want) => v == want
    case None => v.name in used
  }

  lemma VolumesUnchangedIffConform(live: seq<Volume>, desired: seq<Volume>, used: set<string>)
    ensures MergedVolumes(live, desired, used) == live <==> VolumesConform(desired, live, used)
  {
    KeptVolumesUnchanged(live, desired, used);
    VolumesNotNamedEmpty(desired, VolumeNames(live));
    var kept, added := KeptVolumes(live, desired, used), VolumesNotNamed(desired, VolumeNames(live));
    if added != [] {
      assert added[0] in added && (kept + added)[|kept|] == added[0];
      assert |kept| < |live| ==> live[|kept|].name in VolumeNames(live);
    }
    if MergedVolumes(live, desired, used) == live {
      assert kept == live;
    }
    if VolumesConform(desired, live, used) {
      forall i | 0 <= i < |live| ensures VolumeStays(live[i], desired, used) {}
    }
    if kept == live {
      forall i | 0 <= i < |live| ensures VolumeStays(live[i], desired, used) {}
    }
  }

  /** For any live object: the comparison reports nothing exactly when the object conforms
      and no nil list or map of it becomes an empty one. */
  lemma NoPatchIffConforms(desired: WorkloadSpec, live: WorkloadSpec)
    ensures NoDifference(live, Merged(desired, live)) <==> Conforms(desired, live) && NilsAgree(desired, live)
  {
    var has, want := live.template.spec, desired.template.spec;
    ContainersUnchangedIffConform(has.containers, want.containers);
    ContainersUnchangedIffConform(Elements(has.initContainers), Elements(want.initContainers));
    var merged := MergedPod(has, want);
    if AllAlike(has.containers, merged.containers) &&
       AllAlike(Elements(has.initContainers), Elements(merged.initContainers)) {
      UsedByAlike(has.containers, merged.containers);
      UsedByAlike(Elements(has.initContainers), Elements(merged.initContainers));
      VolumesUnchangedIffConform(Elements(has.volumes), Elements(want.volumes), Used(has));
    }
  }

  // ---------- one merge is enough ----------

  /** Containers that would be added agree with the last one of their name. */
  predicate SettlesContainers(desired: seq<Container>, live: seq<Container>) {
    forall i :: 0 <= i < |desired| && desired[i].name !in ContainerNames(live) ==>
      ManagedAlike(desired[i], LastNamed(desired, desired[i].name).value)
  }

  predicate SettlesVolumes(desired: seq<Volume>, live: seq<Volume>) {
    forall i :: 0 <= i < |desired| && desired[i].name !in VolumeNames(live) ==>
      LastVolume(desired, desired[i].name) == Some(desired[i])
  }

  predicate Settles(desired: WorkloadSpec, live: WorkloadSpec) {
    var want, has := desired.template.spec, live.template.spec;
    && SettlesContainers(want.containers, has.containers)
    && SettlesContainers(Elements(want.initContainers), Elements(has.initContainers))
    && SettlesVolumes(Elements(want.volumes), Elements(has.volumes))
  }

  lemma {:induction false} NotNamedMembers(cs: seq<Container>, names: set<string>)
    ensures forall c :: c in NotNamed(cs, names) <==> c in cs && c.name !in names
  {
    if cs != [] {
      NotNamedMembers(cs[1..], names);
    }
  }

  lemma MergedNames(live: seq<Container>, desired: seq<Container>)
    ensures ContainerNames(MergedContainers(live, desired)) == ContainerNames(live) + ContainerNames(desired)
  {
    var merged := MergedContainers(live, desired);
    var added := NotNamed(desired, ContainerNames(live));
    NotNamedMembers(desired, ContainerNames(live));
    forall n | n in ContainerNames(merged) ensures n in ContainerNames(live) + ContainerNames(desired) {
      var i :| 0 <= i < |merged| && merged[i].name == n;
      MergedAt(live, desired, i);
      if i < |live| {
        assert live[i].name == n;
      }
    }
    forall n | n in ContainerNames(live) ensures n in ContainerNames(merged) {
      var i :| 0 <= i < |live| && live[i].name == n;
      MergedAt(live, desired, i);
      assert merged[i].name == n;
    }
    forall n | n in ContainerNames(desired) - ContainerNames(live) ensures n in ContainerNames(merged) {
      var i :| 0 <= i < |desired| && desired[i].name == n;
      assert desired[i] in added;
      var x :| 0 <= x < |added| && added[x] == desired[i];
      assert merged[|live| + x].name == n;
    }
  }

  /** Where the containers of a merge come from. */
  lemma MergedAt(live: seq<Container>, desired: seq<Container>, i: nat)
    requires i < |MergedContainers(live, desired)|
    ensures var m := MergedContainers(live, desired)[i];
      if i < |live| then m == MergeKnown(live[i], desired)
      else m in desired && m.name !in ContainerNames(live)
  {
    NotNamedMembers(desired, ContainerNames(live));
    if i >= |live| {
      var added := NotNamed(desired, ContainerNames(live));
      assert MergedContainers(live, desired)[i] == added[i - |live|];
      assert added[i - |live|] in added;
    }
  }

  lemma AddedAt(live: seq<Container>, desired: seq<Container>, c: Container) returns (i: nat)
    requires c in desired && c.name !in ContainerNames(live)
    ensures i < |MergedContainers(live, desired)| && MergedContainers(live, desired)[i] == c
  {
    NotNamedMembers(desired, ContainerNames(live));
    var added := NotNamed(desired, ContainerNames(live));
    var x :| 0 <= x < |added| && added[x] == c;
    i := |live| + x;
  }

  lemma MergedContainersSettle(live: seq<Container>, desired: seq<Container>)
    ensures ContainersConform(desired, MergedContainers(live, desired)) <==> SettlesContainers(desired, live)
  {
    var merged := MergedContainers(live, desired);
    MergedNames(live, desired);
    if ContainersConform(desired, merged) {
      forall i | 0 <= i < |desired| && desired[i].name !in ContainerNames(live)
        ensures ManagedAlike(desired[i], LastNamed(desired, desired[i].name).value)
      {
        var x := AddedAt(live, desired, desired[i]);
        assert merged[x].name in ContainerNames(desired);
      }
    }
    if SettlesContainers(desired, live) {
      forall i | 0 <= i < |merged| && LastNamed(desired, merged[i].name).Some?
        ensures ManagedAlike(merged[i], LastNamed(desired, merged[i].name).value)
      {
        MergedAt(live, desired, i);
        if i >= |live| {
          var x :| 0 <= x < |desired| && desired[x] == merged[i];
        }
      }
    }
  }

  lemma {:induction false} KeptVolumesMembers(live: seq<Volume>, desired: seq<Volume>, used: set<string>)
    ensures forall v :: v in KeptVolumes(live, desired, used) ==>
      VolumeStays(v, desired, used) && v.name in VolumeNames(live)
    ensures forall v :: v in live && LastVolume(desired, v.name).None? && v.name in used ==>
      v in KeptVolumes(live, desired, used)
    ensures forall v :: v in live && LastVolume(desired, v.name).Some? ==>
      LastVolume(desired, v.name).value in KeptVolumes(live, desired, used)
  {
    if live != [] {
      KeptVolumesMembers(live[1..], desired, used);
      assert forall v :: v in live <==> v == live[0] || v in live[1..];
      assert live[0].name in VolumeNames(live);
      assert forall n :: n in VolumeNames(live[1..]) ==> n in VolumeNames(live) by {
        forall n | n in VolumeNames(live[1..]) ensures n in VolumeNames(live) {
          var i :| 0 <= i < |live[1..]| && live[1..][i].name == n;
          assert live[i+1].name == n;
        }
      }
    }
  }

  lemma InVolumeNames(vs: seq<Volume>, v: Volume)
    requires v in vs
    ensures v.name in VolumeNames(vs)
  {
    var i :| 0 <= i < |vs| && vs[i] == v;
  }

  lemma MergedVolumesNamed(live: seq<Volume>, desired: seq<Volume>, used: set<string>)
    ensures VolumeNames(desired) <= VolumeNames(MergedVolumes(live, desired, used))
  {
    var merged := MergedVolumes(live, desired, used);
    KeptVolumesMembers(live, desired, used);
    VolumesNotNamedEmpty(desired, VolumeNames(live));
    forall n | n in VolumeNames(desired) ensures n in VolumeNames(merged) {
      if n in VolumeNames(live) {
        var i :| 0 <= i < |live| && live[i].name == n;
        assert live[i] in live;
        InVolumeNames(merged, LastVolume(desired, n).value);
      } else {
        var i :| 0 <= i < |desired| && desired[i].name == n;
        assert desired[i] in VolumesNotNamed(desired, VolumeNames(live));
        InVolumeNames(merged, desired[i]);
      }
    }
  }

  lemma MergedVolumesSettle(live: seq<Volume>, desired: seq<Volume>, used: set<string>)
    ensures VolumesConform(desired, MergedVolumes(live, desired, used), used) <==> SettlesVolumes(desired, live)
  {
    if SettlesVolumes(desired, live) {
      SettlingVolumesConform(live, desired, used);
    }
    var merged := MergedVolumes(live, desired, used);
    if VolumesConform(desired, merged, used) {
      forall i | 0 <= i < |merged| ensures VolumeStays(merged[i], desired, used) {}
      forall i | 0 <= i < |desired| && desired[i].name !in VolumeNames(live)
        ensures LastVolume(desired, desired[i].name) == Some(desired[i])
      {
        AddedVolumeStays(live, desired, used, desired[i]);
      }
    }
  }

  lemma AddedVolumeStays(live: seq<Volume>, desired: seq<Volume>, used: set<string>, v: Volume)
    requires v in desired && v.name !in VolumeNames(live)
    requires forall i :: 0 <= i < |MergedVolumes(live, desired, used)| ==>
      VolumeStays(MergedVolumes(live, desired, used)[i], desired, used)
    ensures LastVolume(desired, v.name) == Some(v)
  {
    var kept, added := KeptVolumes(live, desired, used), VolumesNotNamed(desired, VolumeNames(live));
    VolumesNotNamedEmpty(desired, VolumeNames(live));
    InVolumeNames(desired, v);
    assert v in added;
    var x :| 0 <= x < |added| && added[x] == v;
    assert MergedVolumes(live, desired, used)[|kept| + x] == v;
    assert VolumeStays(v, desired, used);
  }

  lemma SettlingVolumesConform(live: seq<Volume>, desired: seq<Volume>, used: set<string>)
    requires SettlesVolumes(desired, live)
    ensures VolumesConform(desired, MergedVolumes(live, desired, used), used)
  {
    var merged := MergedVolumes(live, desired, used);
    var kept, added := KeptVolumes(live, desired, used), VolumesNotNamed(desired, VolumeNames(live));
    MergedVolumesNamed(live, desired, used);
    VolumesNotNamedEmpty(desired, VolumeNames(live));
    KeptVolumesMembers(live, desired, used);
    forall i | 0 <= i < |merged| ensures VolumeStays(merged[i], desired, used) {
      if i < |kept| {
        assert merged[i] == kept[i] && kept[i] in kept;
      } else {
        assert merged[i] == added[i - |kept|] && added[i - |kept|] in added;
        var x :| 0 <= x < |desired| && desired[x] == merged[i];
      }
    }
  }

  /** For any live object, the merged object conforms exactly when no two desired entries of
      one name disagree about something that is yet to be added. */
  lemma MergedConforms(desired: WorkloadSpec, live: WorkloadSpec)
    ensures Conforms(desired, Merged(desired, live)) <==> Settles(desired, live)
  {
    var has, want := live.template.spec, desired.template.spec;
    MergedContainersSettle(has.containers, want.containers);
    MergedContainersSettle(Elements(has.initContainers), Elements(want.initContainers));
    MergedVolumesSettle(Elements(has.volumes), Elements(want.volumes), Used(MergedPod(has, want)));
  }

  /** The merge is idempotent as far as the comparison can tell, so that a second one sends
      nothing, under exactly the same condition. */
  lemma MergeTwice(desired: WorkloadSpec, live: WorkloadSpec)
    ensures NoDifference(Merged(desired, live), Merged(desired, Merged(desired, live))) <==> Settles(desired, live)
  {
    NoPatchIffConforms(desired, Merged(desired, live));
    MergedConforms(desired, live);
  }

  /** With unique names it is idempotent to the letter, ignored fields included. */
  lemma MergeIsIdempotent(desired: WorkloadSpec, live: WorkloadSpec)
    requires UniqueNames(desired)
    ensures Merged(desired, Merged(desired, live)) == Merged(desired, live)
  {
    var has, want, once := live.template.spec, desired.template.spec, Merged(desired, live).template.spec;
    ContainersMergeOnce(has.containers, want.containers);
    ContainersMergeOnce(Elements(has.initContainers), Elements(want.initContainers));
    UniqueNamesSettle(desired, live);
    MergedConforms(desired, live);
    VolumesUnchangedIffConform(Elements(once.volumes), Elements(want.volumes), Used(once));
  }

  lemma ContainersMergeOnce(live: seq<Container>, desired: seq<Container>)
    requires UniqueContainers(desired)
    ensures MergedContainers(MergedContainers(live, desired), desired) == MergedContainers(live, desired)
  {
    var once := MergedContainers(live, desired);
    MergedNames(live, desired);
    NotNamedEmpty(desired, ContainerNames(once));
    UniqueLast(desired);
    forall i | 0 <= i < |once| ensures MergeKnown(once[i], desired) == once[i] {
      MergedAt(live, desired, i);
      if i >= |live| {
        var x :| 0 <= x < |desired| && desired[x] == once[i];
      }
    }
    assert MergedExisting(once, desired) == once;
  }

  predicate UniqueNames(desired: WorkloadSpec) {
    var want := desired.template.spec;
    && UniqueContainers(want.containers)
    && UniqueContainers(Elements(want.initContainers))
    && (var vs := Elements(want.volumes); forall i, j :: 0 <= i < j < |vs| ==> vs[i].name != vs[j].name)
  }

  predicate UniqueContainers(cs: seq<Container>) {
    forall i, j :: 0 <= i < j < |cs| ==> cs[i].name != cs[j].name
  }

  /** With the unique names that the API demands of a pod, it always does. */
  lemma UniqueNamesSettle(desired: WorkloadSpec, live: WorkloadSpec)
    requires UniqueNames(desired)
    ensures Settles(desired, live)
  {
    var want := desired.template.spec;
    UniqueLast(want.containers);
    UniqueLast(Elements(want.initContainers));
    var vs := Elements(want.volumes);
    forall i | 0 <= i < |vs| ensures LastVolume(vs, vs[i].name) == Some(vs[i]) {
      InVolumeNames(vs, vs[i]);
      var w := LastVolume(vs, vs[i].name).value;
      UniqueVolumes(vs, vs[i], w);
    }
  }

  lemma UniqueVolumes(vs: seq<Volume>, v: Volume, w: Volume)
    requires forall i, j :: 0 <= i < j < |vs| ==> vs[i].name != vs[j].name
    requires v in vs && w in vs && v.name == w.name
    ensures v == w
  {
    var x :| 0 <= x < |vs| && vs[x] == v;
    var y :| 0 <= y < |vs| && vs[y] == w;
    assert x == y;
  }

  lemma UniqueLast(cs: seq<Container>)
    requires UniqueContainers(cs)
    ensures forall i :: 0 <= i < |cs| ==> LastNamed(cs, cs[i].name) == Some(cs[i])
  {
    forall i | 0 <= i < |cs| ensures LastNamed(cs, cs[i].name) == Some(cs[i]) {
      assert cs[i].name in ContainerNames(cs);
      var w := LastNamed(cs, cs[i].name).value;
      assert w in cs && w.name == cs[i].name;
      var x :| 0 <= x < |cs| && cs[x] == w;
      assert x == i;
    }
  }

  /** A freshly created workload conforms. */
  lemma CreatedConforms(desired: WorkloadSpec)
    requires UniqueNames(desired)
    ensures Conforms(desired, desired)
  {
    var want := desired.template.spec;
    UniqueLast(want.containers);
    UniqueLast(Elements(want.initContainers));
    var vs := Elements(want.volumes);
    forall i | 0 <= i < |vs| ensures LastVolume(vs, vs[i].name) == Some(vs[i]) {
      InVolumeNames(vs, vs[i]);
      UniqueVolumes(vs, vs[i], LastVolume(vs, vs[i].name).value);
    }
  }

  // ---------- what others may do to a written object without causing drift ----------

  /** Injected containers come after the written ones, under names of their own. */
  predicate ContainersAdmitted(written: seq<Container>, stored: seq<Container>) {
    && |stored| >= |written|
    && (forall i :: 0 <= i < |written| ==>
        && stored[i].name == written[i].name && ManagedAlike(stored[i], written[i])
        && stored[i].devices == written[i].devices)
    && (forall i :: |written| <= i < |stored| ==> stored[i].name !in ContainerNames(written))
  }

  predicate VolumesAdmitted(written: seq<Volume>, stored: seq<Volume>, used: set<string>) {
    && |stored| >= |written|
    && stored[..|written|] == written
    && (forall i :: |written| <= i < |stored| ==> stored[i].name !in VolumeNames(written) && stored[i].name in used)
  }

  /** API-server defaulting and sidecar injection: ignored and unmanaged fields may take
      any value; unknown containers, and volumes in use, may be added. */
  predicate Admitted(written: WorkloadSpec, stored: WorkloadSpec) {
    var w, s := written.template.spec, stored.template.spec;
    && stored.replicas == written.replicas
    && stored.template.labels == written.template.labels
    && Pairs(stored.template.annotations) == Pairs(written.template.annotations)
    && ContainersAdmitted(w.containers, s.containers)
    && ContainersAdmitted(Elements(w.initContainers), Elements(s.initContainers))
    && VolumesAdmitted(Elements(w.volumes), Elements(s.volumes), Used(s))
    && s.tolerations == w.tolerations && s.affinity == w.affinity
  }

  lemma AdmittedContainersConform(desired: seq<Container>, written: seq<Container>, stored: seq<Container>)
    requires ContainersConform(desired, written) && ContainersAdmitted(written, stored)
    ensures ContainersConform(desired, stored) && UsedBy(written) <= UsedBy(stored)
  {
    forall n | n in ContainerNames(desired) ensures n in ContainerNames(stored) {
      assert n in ContainerNames(written);
      var i :| 0 <= i < |written| && written[i].name == n;
      assert stored[i].name == n;
    }
    forall i | 0 <= i < |stored| && LastNamed(desired, stored[i].name).Some?
      ensures ManagedAlike(stored[i], LastNamed(desired, stored[i].name).value)
    {
      if i < |written| {
        assert ManagedAlike(written[i], LastNamed(desired, written[i].name).value);
      }
    }
    forall n | n in UsedBy(written) ensures n in UsedBy(stored) {
      UsedByMember(written, n);
      UsedByMember(stored, n);
      var i :| 0 <= i < |written| && n in Uses(written[i]);
      assert ManagedAlike(stored[i], written[i]);
      assert n in Uses(stored[i]);
    }
  }

  /** Once an object conforms, admission does not make it drift. */
  lemma AdmissionKeepsConforming(desired: WorkloadSpec, written: WorkloadSpec, stored: WorkloadSpec)
    requires Conforms(desired, written) && Admitted(written, stored)
    ensures Conforms(desired, stored)
  {
    var want, w, s := desired.template.spec, written.template.spec, stored.template.spec;
    AdmittedContainersConform(want.containers, w.containers, s.containers);
    AdmittedContainersConform(Elements(want.initContainers), Elements(w.initContainers), Elements(s.initContainers));
    var dv, wv, sv := Elements(want.volumes), Elements(w.volumes), Elements(s.volumes);
    assert Used(w) <= Used(s);
    forall i | 0 <= i < |wv| ensures sv[i] == wv[i] {
      assert sv[..|wv|][i] == wv[i];
    }
    forall n | n in VolumeNames(dv) ensures n in VolumeNames(sv) {
      assert n in VolumeNames(wv);
      var i :| 0 <= i < |wv| && wv[i].name == n;
      assert sv[i].name == n;
    }
    forall i | 0 <= i < |sv| ensures VolumeStays(sv[i], dv, Used(s)) {
      if i < |wv| {
        assert VolumeStays(wv[i], dv, Used(w));
      } else {
        assert LastVolume(dv, sv[i].name).None?;
      }
    }
  }

  // ---------- the shape of a merge ----------

  predicate TakesManaged(m: Container, d: Container) {
    m.name == d.name && m.image == d.image && m.env == d.env && m.mounts == d.mounts && m.probe == d.probe
  }

  /** Live containers keep their places and their unmanaged fields, unknown ones whole. */
  lemma MergeKeepsLive(live: seq<Container>, desired: seq<Container>, i: nat)
    requires i < |live|
    ensures var m := MergedContainers(live, desired)[i];
      && m.name == live[i].name && m.devices == live[i].devices
      && m.securityContext == live[i].securityContext && m.pullPolicy == live[i].pullPolicy
      && (live[i].name !in ContainerNames(desired) ==> m == live[i])
      && (live[i].name in ContainerNames(desired) ==> exists d :: d in desired && TakesManaged(m, d))
  {
    var m := MergedContainers(live, desired)[i];
    assert m == MergeKnown(live[i], desired);
    if live[i].name in ContainerNames(desired) {
      var d := LastNamed(desired, live[i].name).value;
      assert d in desired && TakesManaged(m, d);
    }
  }

  /** The volumes of a merge are: the unknown live ones that are still used, the last
      desired one of every name that is live, and all desired ones whose name is not. */
  lemma MergedVolumesExactly(live: seq<Volume>, desired: seq<Volume>, used: set<string>, v: Volume)
    ensures v in MergedVolumes(live, desired, used) <==>
      || (v in live && v.name !in VolumeNames(desired) && v.name in used)
      || (v.name in VolumeNames(live) && LastVolume(desired, v.name) == Some(v))
      || (v in desired && v.name !in VolumeNames(live))
  {
    KeptVolumesMembers(live, desired, used);
    VolumesNotNamedEmpty(desired, VolumeNames(live));
    var kept, added := KeptVolumes(live, desired, used), VolumesNotNamed(desired, VolumeNames(live));
    assert v in MergedVolumes(live, desired, used) <==> v in kept || v in added;
    if v in kept && LastVolume(desired, v.name) != Some(v) {
      if v in desired {
        InVolumeNames(desired, v);
      }
      KeptOrigin(live, desired, used, v);
    }
    if v.name in VolumeNames(live) && LastVolume(desired, v.name) == Some(v) {
      var i :| 0 <= i < |live| && live[i].name == v.name;
      assert live[i] in live;
    }
  }

  /** With unique names: the desired ones, and the unknown ones that are still used. */
  lemma MergedVolumesOfUniqueNames(live: seq<Volume>, desired: seq<Volume>, used: set<string>, v: Volume)
    requires forall i, j :: 0 <= i < j < |desired| ==> desired[i].name != desired[j].name
    ensures v in MergedVolumes(live, desired, used) <==>
      v in desired || (v in live && v.name !in VolumeNames(desired) && v.name in used)
  {
    MergedVolumesExactly(live, desired, used, v);
    if v in desired {
      InVolumeNames(desired, v);
      UniqueVolumes(desired, v, LastVolume(desired, v.name).value);
    }
  }

  lemma {:induction false} KeptOrigin(live: seq<Volume>, desired: seq<Volume>, used: set<string>, v: Volume)
    requires v in KeptVolumes(live, desired, used) && v !in desired
    ensures v in live && v.name !in VolumeNames(desired) && v.name in used
  {
    if v in KeptVolumes(live[1..], desired, used) {
      KeptOrigin(live[1..], desired, used, v);
    }
  }

  // ---------- mount closure ----------

  /** Every mount or device of every container names a volume of the pod. */
  predicate Closed(spec: PodSpec) {
    Used(spec) <= VolumeNames(Elements(spec.volumes))
  }

  lemma MergedUse(live: seq<Container>, desired: seq<Container>, n: string)
    requires n in UsedBy(MergedContainers(live, desired))
    ensures n in UsedBy(live) || n in UsedBy(desired)
  {
    var merged := MergedContainers(live, desired);
    var added := NotNamed(desired, ContainerNames(live));
    UsedByMember(merged, n);
    UsedByMember(live, n);
    UsedByMember(desired, n);
    NotNamedMembers(desired, ContainerNames(live));
    var i :| 0 <= i < |merged| && n in Uses(merged[i]);
    if i < |live| {
      assert merged[i] == MergeKnown(live[i], desired);
      var want := LastNamed(desired, live[i].name);
      if want.Some? {
        var x :| 0 <= x < |desired| && desired[x] == want.value;
        assert n in Uses(live[i]) || n in Uses(desired[x]);
      } else {
        assert n in Uses(live[i]);
      }
    } else {
      assert merged[i] in added;
      var x :| 0 <= x < |desired| && desired[x] == merged[i];
      assert n in Uses(desired[x]);
    }
  }

  /** A pod whose mounts all name volumes stays that way, sidecars and all. */
  lemma MergeKeepsClosed(live: PodSpec, desired: PodSpec)
    requires Closed(live) && Closed(desired)
    ensures Closed(MergedPod(live, desired))
  {
    var merged := MergedPod(live, desired);
    var lv, dv, mv := Elements(live.volumes), Elements(desired.volumes), Elements(merged.volumes);
    KeptVolumesMembers(lv, dv, Used(merged));
    VolumesNotNamedEmpty(dv, VolumeNames(lv));
    forall n | n in Used(merged) ensures n in VolumeNames(mv) {
      if n in UsedBy(merged.containers) {
        MergedUse(live.containers, desired.containers, n);
      } else {
        MergedUse(Elements(live.initContainers), Elements(desired.initContainers), n);
      }
      VolumeSurvives(lv, dv, Used(merged), n);
    }
  }

  lemma VolumeSurvives(live: seq<Volume>, desired: seq<Volume>, used: set<string>, n: string)
    requires n in used && (n in VolumeNames(live) || n in VolumeNames(desired))
    ensures n in VolumeNames(MergedVolumes(live, desired, used))
  {
    var merged := MergedVolumes(live, desired, used);
    KeptVolumesMembers(live, desired, used);
    VolumesNotNamedEmpty(desired, VolumeNames(live));
    if n in VolumeNames(live) {
      var i :| 0 <= i < |live| && live[i].name == n;
      assert live[i] in live;
      var want := LastVolume(desired, n);
      InVolumeNames(merged, if want.Some? then want.value else live[i]);
    } else {
      var i :| 0 <= i < |desired| && desired[i].name == n;
      assert desired[i] in VolumesNotNamed(desired, VolumeNames(live));
      InVolumeNames(merged, desired[i]);
    }
  }
}
