/** The merge of a desired pod into a live one: managed fields are overwritten, injected
    containers and the volumes they use stay. */
module WorkloadMerge {
  import opened Options

  // ---------- the parts of a pod ----------

  datatype Mount = Mount(name: string, path: string)

  /** `timeout` stands for the probe fields the API server fills in and the drift check
      ignores. */
  datatype Probe = Probe(path: string, timeout: nat)

  /** Managed: name, image, env, mounts, probe.  Kept from the live object: devices,
      securityContext, pullPolicy; the last one is also ignored by the drift check. */
  datatype Container = Container(
    name: string, image: string, env: seq<string>, mounts: seq<Mount>, probe: Option<Probe>,
    devices: seq<string>, securityContext: string, pullPolicy: string)

  datatype VolumeSource =
    | ConfigMapSource(configMap: string, mode: int)
    | SecretSource(secret: string, mode: int)
    | OtherSource(text: string)

  datatype Volume = Volume(name: string, source: VolumeSource)

  // ---------- containers ----------

  function ContainerNames(cs: seq<Container>): set<string> {
    set i | 0 <= i < |cs| :: cs[i].name
  }

  /** The container a Go map filled in list order holds under `name`: the last one. */
  function LastNamed(cs: seq<Container>, name: string): (r: Option<Container>)
    ensures r.Some? <==> name in ContainerNames(cs)
    ensures r.Some? ==> r.value in cs && r.value.name == name
  {
    if cs == [] then None
    else if cs[|cs|-1].name == name then Some(cs[|cs|-1])
    else
      assert ContainerNames(cs) == ContainerNames(cs[..|cs|-1]) + {cs[|cs|-1].name} by {
        NamesGrow(cs, |cs| - 1);
        assert cs[..|cs|] == cs;
      }
      LastNamed(cs[..|cs|-1], name)
  }

  lemma NamesGrow(cs: seq<Container>, i: nat)
    requires i < |cs|
    ensures ContainerNames(cs[..i+1]) == ContainerNames(cs[..i]) + {cs[i].name}
  {
    forall n | n in ContainerNames(cs[..i]) + {cs[i].name} ensures n in ContainerNames(cs[..i+1]) {
      if n == cs[i].name {
        assert cs[..i+1][i].name == n;
      } else {
        var x :| 0 <= x < i && cs[..i][x].name == n;
        assert cs[..i+1][x].name == n;
      }
    }
  }

  /** Managed fields from `desired`, everything else from `existing`. */
  function MergeOne(existing: Container, desired: Container): Container {
    existing.(name := desired.name, image := desired.image, env := desired.env,
              mounts := desired.mounts, probe := desired.probe)
  }

  function MergeKnown(current: Container, desired: seq<Container>): Container {
    var want := LastNamed(desired, current.name);
    if want.Some? then MergeOne(current, want.value) else current
  }

  function MergedExisting(existing: seq<Container>, desired: seq<Container>): (r: seq<Container>)
    ensures |r| == |existing|
    ensures forall i :: 0 <= i < |r| ==> r[i] == MergeKnown(existing[i], desired)
  {
    seq(|existing|, i requires 0 <= i < |existing| => MergeKnown(existing[i], desired))
  }

  /** The containers whose name is not in `names`, in order. */
  function NotNamed(cs: seq<Container>, names: set<string>): seq<Container> {
    if cs == [] then []
    else (if cs[0].name in names then [] else [cs[0]]) + NotNamed(cs[1..], names)
  }

  /** The live containers in their order, then the desired ones that are not live yet. */
  function MergedContainers(existing: seq<Container>, desired: seq<Container>): seq<Container> {
    MergedExisting(existing, desired) + NotNamed(desired, ContainerNames(existing))
  }

  /** The desired containers by name; a later one replaces an earlier one. */
  method IndexContainers(desired: seq<Container>) returns (byName: map<string, Container>)
    ensures byName.Keys == ContainerNames(desired)
    ensures forall n :: n in byName ==> LastNamed(desired, n) == Some(byName[n])
  {
    byName := map[];
    for i := 0 to |desired|
      invariant byName.Keys == ContainerNames(desired[..i])
      invariant forall n :: n in byName ==> LastNamed(desired[..i], n) == Some(byName[n])
    {
      assert desired[..i+1][..i] == desired[..i];
      NamesGrow(desired, i);
      byName := byName[desired[i].name := desired[i]];
    }
    assert desired[..|desired|] == desired;
  }

  method MergeContainersPreservingUnknown(existing: seq<Container>, desired: seq<Container>)
    returns (merged: seq<Container>)
    ensures merged == MergedContainers(existing, desired)
  {
    var desiredByName := IndexContainers(desired);
    merged := [];
    var seen: set<string> := {};
    for i := 0 to |existing|
      invariant merged == MergedExisting(existing[..i], desired)
      invariant seen == ContainerNames(desired) * ContainerNames(existing[..i])
    {
      var current := existing[i];
      NamesGrow(existing, i);
      assert MergedExisting(existing[..i+1], desired) ==
        MergedExisting(existing[..i], desired) + [MergeKnown(current, desired)];
      if current.name !in desiredByName {
        merged := merged + [current];
        continue;
      }
      seen := seen + {current.name};
      var one := MergeContainerPreservingMutations(current, desiredByName[current.name]);
      merged := merged + [one];
    }
    assert existing[..|existing|] == existing;
    var added := UnseenContainers(desired, seen, existing);
    merged := merged + added;
  }

  lemma ContainersStep(added: seq<Container>, cs: seq<Container>, i: nat, names: set<string>)
    requires i < |cs|
    ensures (if cs[i].name in names then added else added + [cs[i]]) + NotNamed(cs[i+1..], names) ==
      added + NotNamed(cs[i..], names)
  {
    assert cs[i..][1..] == cs[i+1..];
  }

  /** The desired containers that no live one stood for. */
  method UnseenContainers(desired: seq<Container>, seen: set<string>, ghost existing: seq<Container>)
    returns (added: seq<Container>)
    requires seen == ContainerNames(desired) * ContainerNames(existing)
    ensures added == NotNamed(desired, ContainerNames(existing))
  {
    added := [];
    for i := 0 to |desired|
      invariant added + NotNamed(desired[i..], ContainerNames(existing)) == NotNamed(desired, ContainerNames(existing))
    {
      ContainersStep(added, desired, i, ContainerNames(existing));
      assert desired[i].name in ContainerNames(desired);
      if desired[i].name in seen {
        continue;
      }
      added := added + [desired[i]];
    }
  }

  method MergeContainerPreservingMutations(existing: Container, desired: Container) returns (merged: Container)
    ensures merged == MergeOne(existing, desired)
  {
    merged := existing;
    merged := merged.(name := desired.name);
    merged := merged.(image := desired.image);
    merged := merged.(probe := desired.probe);
    merged := merged.(env := desired.env);
    merged := merged.(mounts := desired.mounts);
  }

  // ---------- volumes ----------

  function VolumeNames(vs: seq<Volume>): set<string> {
    set i | 0 <= i < |vs| :: vs[i].name
  }

  function LastVolume(vs: seq<Volume>, name: string): (r: Option<Volume>)
    ensures r.Some? <==> name in VolumeNames(vs)
    ensures r.Some? ==> r.value in vs && r.value.name == name
  {
    if vs == [] then None
    else if vs[|vs|-1].name == name then Some(vs[|vs|-1])
    else
      assert VolumeNames(vs) == VolumeNames(vs[..|vs|-1]) + {vs[|vs|-1].name} by {
        VolumeNamesGrow(vs, |vs| - 1);
        assert vs[..|vs|] == vs;
      }
      LastVolume(vs[..|vs|-1], name)
  }

  lemma VolumeNamesGrow(vs: seq<Volume>, i: nat)
    requires i < |vs|
    ensures VolumeNames(vs[..i+1]) == VolumeNames(vs[..i]) + {vs[i].name}
  {
    forall n | n in VolumeNames(vs[..i]) + {vs[i].name} ensures n in VolumeNames(vs[..i+1]) {
      if n == vs[i].name {
        assert vs[..i+1][i].name == n;
      } else {
        var x :| 0 <= x < i && vs[..i][x].name == n;
        assert vs[..i+1][x].name == n;
      }
    }
  }

  /** The volume names a container mounts or attaches. */
  function Uses(c: Container): set<string> {
    (set i | 0 <= i < |c.mounts| :: c.mounts[i].name) + (set i | 0 <= i < |c.devices| :: c.devices[i])
  }

  function UsedBy(cs: seq<Container>): set<string> {
    if cs == [] then {} else Uses(cs[0]) + UsedBy(cs[1..])
  }

  lemma UsedByMember(cs: seq<Container>, n: string)
    ensures n in UsedBy(cs) <==> exists i :: 0 <= i < |cs| && n in Uses(cs[i])
  {
    if cs != [] {
      UsedByMember(cs[1..], n);
      if i :| 0 <= i < |cs| && n in Uses(cs[i]) {
        if i > 0 {
          assert cs[1..][i-1] == cs[i];
        }
      }
      if i :| 0 <= i < |cs[1..]| && n in Uses(cs[1..][i]) {
        assert cs[i+1] == cs[1..][i];
      }
    }
  }

  /** What becomes of the live volumes: desired ones are replaced, unknown ones stay while
      in use. */
  function KeptVolumes(existing: seq<Volume>, desired: seq<Volume>, used: set<string>): seq<Volume> {
    if existing == [] then []
    else KeptVolume(existing[0], desired, used) + KeptVolumes(existing[1..], desired, used)
  }

  function KeptVolume(v: Volume, desired: seq<Volume>, used: set<string>): seq<Volume> {
    match LastVolume(desired, v.name)
    case Some(want) => [want]
    case None => if v.name in used then [v] else []
  }

  function VolumesNotNamed(vs: seq<Volume>, names: set<string>): seq<Volume> {
    if vs == [] then []
    else (if vs[0].name in names then [] else [vs[0]]) + VolumesNotNamed(vs[1..], names)
  }

  function MergedVolumes(existing: seq<Volume>, desired: seq<Volume>, used: set<string>): seq<Volume> {
    KeptVolumes(existing, desired, used) + VolumesNotNamed(desired, VolumeNames(existing))
  }

  method MountedVolumeNames(containers: seq<Container>, initContainers: seq<Container>) returns (names: set<string>)
    ensures names == UsedBy(containers) + UsedBy(initContainers)
  {
    var used := NamesUsed(containers);
    var usedByInit := NamesUsed(initContainers);
    names := used + usedByInit;
  }

  method NamesUsed(items: seq<Container>) returns (names: set<string>)
    ensures names == UsedBy(items)
  {
    names := {};
    for i := 0 to |items|
      invariant names + UsedBy(items[i..]) == UsedBy(items)
    {
      assert items[i..][1..] == items[i+1..];
      var mine := NamesOf(items[i]);
      names := names + mine;
    }
  }

  method NamesOf(c: Container) returns (names: set<string>)
    ensures names == Uses(c)
  {
    names := {};
    for j := 0 to |c.mounts|
      invariant names == set x | 0 <= x < j :: c.mounts[x].name
    {
      names := names + {c.mounts[j].name};
    }
    ghost var mounted := names;
    for j := 0 to |c.devices|
      invariant names == mounted + set x | 0 <= x < j :: c.devices[x]
    {
      names := names + {c.devices[j]};
    }
  }

  /** The desired volumes by name; a later one replaces an earlier one. */
  method IndexVolumes(desired: seq<Volume>) returns (byName: map<string, Volume>)
    ensures byName.Keys == VolumeNames(desired)
    ensures forall n :: n in byName ==> LastVolume(desired, n) == Some(byName[n])
  {
    byName := map[];
    for i := 0 to |desired|
      invariant byName.Keys == VolumeNames(desired[..i])
      invariant forall n :: n in byName ==> LastVolume(desired[..i], n) == Some(byName[n])
    {
      assert desired[..i+1][..i] == desired[..i];
      VolumeNamesGrow(desired, i);
      byName := byName[desired[i].name := desired[i]];
    }
    assert desired[..|desired|] == desired;
  }

  method MergeVolumesRespectingMountedNames(
    existing: seq<Volume>, desired: seq<Volume>, containers: seq<Container>, initContainers: seq<Container>)
    returns (out: seq<Volume>)
    ensures out == MergedVolumes(existing, desired, UsedBy(containers) + UsedBy(initContainers))
  {
    var desiredByName := IndexVolumes(desired);
    var mounted := MountedVolumeNames(containers, initContainers);
    var seen: set<string>;
    out, seen := KeepVolumes(existing, desired, desiredByName, mounted);
    var added := UnseenVolumes(desired, seen, existing);
    out := out + added;
  }

  lemma KeptStep(out: seq<Volume>, existing: seq<Volume>, i: nat, desired: seq<Volume>, used: set<string>)
    requires i < |existing|
    ensures (out + KeptVolume(existing[i], desired, used)) + KeptVolumes(existing[i+1..], desired, used) ==
      out + KeptVolumes(existing[i..], desired, used)
  {
    assert existing[i..][1..] == existing[i+1..];
  }

  /** One live volume. */
  method KeepVolume(v: Volume, ghost desired: seq<Volume>, byName: map<string, Volume>, mounted: set<string>)
    returns (kept: seq<Volume>)
    requires byName.Keys == VolumeNames(desired)
    requires forall n :: n in byName ==> LastVolume(desired, n) == Some(byName[n])
    ensures kept == KeptVolume(v, desired, mounted)
  {
    if v.name in byName {
      return [byName[v.name]];
    }
    // An unknown volume stays while a preserved or injected container uses it.
    if v.name in mounted {
      return [v];
    }
    return [];
  }

  lemma SeenStep(existing: seq<Volume>, i: nat, desired: seq<Volume>)
    requires i < |existing|
    ensures VolumeNames(desired) * VolumeNames(existing[..i+1]) ==
      VolumeNames(desired) * VolumeNames(existing[..i]) +
      if existing[i].name in VolumeNames(desired) then {existing[i].name} else {}
  {
    VolumeNamesGrow(existing, i);
  }

  method KeepVolumes(
    existing: seq<Volume>, ghost desired: seq<Volume>, byName: map<string, Volume>, mounted: set<string>)
    returns (out: seq<Volume>, seen: set<string>)
    requires byName.Keys == VolumeNames(desired)
    requires forall n :: n in byName ==> LastVolume(desired, n) == Some(byName[n])
    ensures out == KeptVolumes(existing, desired, mounted)
    ensures seen == VolumeNames(desired) * VolumeNames(existing)
  {
    out, seen := [], {};
    for i := 0 to |existing|
      invariant out + KeptVolumes(existing[i..], desired, mounted) == KeptVolumes(existing, desired, mounted)
      invariant seen == VolumeNames(desired) * VolumeNames(existing[..i])
    {
      var v := existing[i];
      SeenStep(existing, i, desired);
      KeptStep(out, existing, i, desired, mounted);
      var kept := KeepVolume(v, desired, byName, mounted);
      out := out + kept;
      if v.name in byName {
        seen := seen + {v.name};
      }
    }
    assert existing[..|existing|] == existing;
  }

  lemma VolumesStep(added: seq<Volume>, vs: seq<Volume>, i: nat, names: set<string>)
    requires i < |vs|
    ensures (if vs[i].name in names then added else added + [vs[i]]) + VolumesNotNamed(vs[i+1..], names) ==
      added + VolumesNotNamed(vs[i..], names)
  {
    assert vs[i..][1..] == vs[i+1..];
  }

  method UnseenVolumes(desired: seq<Volume>, seen: set<string>, ghost existing: seq<Volume>)
    returns (added: seq<Volume>)
    requires seen == VolumeNames(desired) * VolumeNames(existing)
    ensures added == VolumesNotNamed(desired, VolumeNames(existing))
  {
    added := [];
    for i := 0 to |desired|
      invariant added + VolumesNotNamed(desired[i..], VolumeNames(existing)) ==
        VolumesNotNamed(desired, VolumeNames(existing))
    {
      VolumesStep(added, desired, i, VolumeNames(existing));
      assert desired[i].name in VolumeNames(desired);
      if desired[i].name in seen {
        continue;
      }
      added := added + [desired[i]];
    }
  }
}
