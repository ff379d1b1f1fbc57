/** The merge of a workload, said of the fields themselves: mounts, devices, names and the
    order of the lists. */
module WorkloadFields {
  import opened Options
  import opened WorkloadMerge
  import opened Workloads

  // ---------- mounts and devices ----------

  /** Some volume of the list has this name. */
  predicate Named(vs: seq<Volume>, name: string) {
    exists j :: 0 <= j < |vs| && vs[j].name == name
  }

  /** The container mounts a volume of this name, or attaches it as a device. */
  predicate Attaches(c: Container, name: string) {
    || (exists i :: 0 <= i < |c.mounts| && c.mounts[i].name == name)
    || (exists i :: 0 <= i < |c.devices| && c.devices[i] == name)
  }

  predicate AllNamed(c: Container, vs: seq<Volume>) {
    && (forall i :: 0 <= i < |c.mounts| ==> Named(vs, c.mounts[i].name))
    && (forall i :: 0 <= i < |c.devices| ==> Named(vs, c.devices[i]))
  }

  /** Every mount and every device of every container and init container names a volume. */
  predicate NothingDangles(spec: PodSpec) {
    var vs, init := Elements(spec.volumes), Elements(spec.initContainers);
    && (forall i :: 0 <= i < |spec.containers| ==> AllNamed(spec.containers[i], vs))
    && (forall i :: 0 <= i < |init| ==> AllNamed(init[i], vs))
  }

  lemma UsesIff(c: Container, name: string)
    ensures name in Uses(c) <==> Attaches(c, name)
  {}

  lemma NamedIff(vs: seq<Volume>, name: string)
    ensures Named(vs, name) <==> name in VolumeNames(vs)
  {}

  lemma AllNamedIff(c: Container, vs: seq<Volume>)
    ensures AllNamed(c, vs) <==> Uses(c) <= VolumeNames(vs)
  {
    if AllNamed(c, vs) {
      forall n | n in Uses(c) ensures n in VolumeNames(vs) {
        UsesIff(c, n);
        NamedIff(vs, n);
      }
    }
    if Uses(c) <= VolumeNames(vs) {
      forall i | 0 <= i < |c.mounts| ensures Named(vs, c.mounts[i].name) {
        UsesIff(c, c.mounts[i].name);
      }
      forall i | 0 <= i < |c.devices| ensures Named(vs, c.devices[i]) {
        UsesIff(c, c.devices[i]);
      }
    }
  }

  lemma {:induction false} AllNamedInList(cs: seq<Container>, vs: seq<Volume>)
    ensures (forall i :: 0 <= i < |cs| ==> AllNamed(cs[i], vs)) <==> UsedBy(cs) <= VolumeNames(vs)
  {
    if cs != [] {
      AllNamedIff(cs[0], vs);
      AllNamedInList(cs[1..], vs);
      assert forall i :: 0 < i < |cs| ==> cs[i] == cs[1..][i-1];
      assert forall i :: 0 <= i < |cs[1..]| ==> cs[1..][i] == cs[i+1];
    }
  }

  lemma NothingDanglesIffClosed(spec: PodSpec)
    ensures NothingDangles(spec) <==> Closed(spec)
  {
    AllNamedInList(spec.containers, Elements(spec.volumes));
    AllNamedInList(Elements(spec.initContainers), Elements(spec.volumes));
  }

  /** If nothing dangles in the live pod, sidecars and their devices included, nor in the
      desired one, then nothing does in the merged one. */
  lemma MergeLeavesNothingDangling(live: PodSpec, desired: PodSpec)
    requires NothingDangles(live) && NothingDangles(desired)
    ensures NothingDangles(MergedPod(live, desired))
  {
    NothingDanglesIffClosed(live);
    NothingDanglesIffClosed(desired);
    NothingDanglesIffClosed(MergedPod(live, desired));
    MergeKeepsClosed(live, desired);
  }

  /** Some container of the pod, init containers included, attaches the name. */
  predicate PodAttaches(spec: PodSpec, name: string) {
    var init := Elements(spec.initContainers);
    || (exists i :: 0 <= i < |spec.containers| && Attaches(spec.containers[i], name))
    || (exists i :: 0 <= i < |init| && Attaches(init[i], name))
  }

  lemma PodAttachesIff(spec: PodSpec, name: string)
    ensures PodAttaches(spec, name) <==> name in Used(spec)
  {
    UsedByMember(spec.containers, name);
    UsedByMember(Elements(spec.initContainers), name);
    forall c ensures name in Uses(c) <==> Attaches(c, name) {
      UsesIff(c, name);
    }
  }

  /** A live volume under a name that is not desired stays exactly when some container of the
      merged pod mounts or attaches it. */
  lemma UndesiredVolumeStaysIff(live: PodSpec, desired: PodSpec, v: Volume)
    requires v in Elements(live.volumes) && !Named(Elements(desired.volumes), v.name)
    ensures v in Elements(MergedPod(live, desired).volumes) <==> PodAttaches(MergedPod(live, desired), v.name)
  {
    var merged := MergedPod(live, desired);
    PodAttachesIff(merged, v.name);
    NamedIff(Elements(desired.volumes), v.name);
    MergedVolumesExactly(Elements(live.volumes), Elements(desired.volumes), Used(merged), v);
    InVolumeNames(Elements(live.volumes), v);
    if v in Elements(desired.volumes) {
      InVolumeNames(Elements(desired.volumes), v);
    }
  }

  /** A container of the merged pod attaches: what the live one did as devices; and mounts:
      what the desired one of its name does, or else what the live one did. */
  lemma MergedAttaches(live: seq<Container>, desired: seq<Container>, i: nat)
    requires i < |live|
    ensures var m := MergedContainers(live, desired)[i];
      && m.devices == live[i].devices
      && ((forall d :: d in desired ==> d.name != live[i].name) ==> m.mounts == live[i].mounts)
      && ((exists d :: d in desired && d.name == live[i].name) ==>
           exists d :: d in desired && d.name == live[i].name && m.mounts == d.mounts)
  {
    MergeKeepsLive(live, desired, i);
    var m := MergedContainers(live, desired)[i];
    forall d | d in desired ensures d.name in ContainerNames(desired) {
      var x :| 0 <= x < |desired| && desired[x] == d;
    }
    if live[i].name in ContainerNames(desired) {
      var d :| d in desired && TakesManaged(m, d);
      assert d.name == live[i].name && m.mounts == d.mounts;
    }
  }

  // ---------- which desired entry counts ----------

  /** Of several desired containers of one name the last one is merged. */
  lemma {:induction false} LastContainerCounts(cs: seq<Container>, i: nat)
    requires i < |cs| && forall j :: i < j < |cs| ==> cs[j].name != cs[i].name
    ensures LastNamed(cs, cs[i].name) == Some(cs[i])
    decreases |cs|
  {
    if i < |cs| - 1 {
      var shorter := cs[..|cs|-1];
      assert shorter[i] == cs[i] && cs[|cs|-1].name != cs[i].name;
      forall j | i < j < |shorter| ensures shorter[j].name != shorter[i].name {
        assert shorter[j] == cs[j];
      }
      LastContainerCounts(shorter, i);
    }
  }

  lemma {:induction false} LastVolumeCounts(vs: seq<Volume>, i: nat)
    requires i < |vs| && forall j :: i < j < |vs| ==> vs[j].name != vs[i].name
    ensures LastVolume(vs, vs[i].name) == Some(vs[i])
    decreases |vs|
  {
    if i < |vs| - 1 {
      var shorter := vs[..|vs|-1];
      assert shorter[i] == vs[i] && vs[|vs|-1].name != vs[i].name;
      forall j | i < j < |shorter| ensures shorter[j].name != shorter[i].name {
        assert shorter[j] == vs[j];
      }
      LastVolumeCounts(shorter, i);
    }
  }

  /** So a live container takes image, environment, mounts and probe of that one. */
  lemma KnownContainerTakes(live: seq<Container>, desired: seq<Container>, i: nat, j: nat)
    requires i < |live| && j < |desired| && desired[j].name == live[i].name
    requires forall x :: j < x < |desired| ==> desired[x].name != live[i].name
    ensures var m, d := MergedContainers(live, desired)[i], desired[j];
      m.name == d.name && m.image == d.image && m.env == d.env && m.mounts == d.mounts && m.probe == d.probe
  {
    LastContainerCounts(desired, j);
    MergedAt(live, desired, i);
  }

  // ---------- the order of what is added ----------

  /** `xs` is what `ys` has at the indices `at`, in order. */
  predicate Picks<T(==)>(xs: seq<T>, ys: seq<T>, at: seq<nat>) {
    && |at| == |xs|
    && (forall x :: 0 <= x < |xs| ==> at[x] < |ys| && ys[at[x]] == xs[x])
    && (forall x, y :: 0 <= x < y < |at| ==> at[x] < at[y])
  }

  function Shifted(at: seq<nat>): (r: seq<nat>)
    ensures |r| == |at| && forall x :: 0 <= x < |at| ==> r[x] == at[x] + 1
  {
    seq(|at|, x requires 0 <= x < |at| => at[x] + 1)
  }

  lemma ShiftedHas(at: seq<nat>, i: nat)
    ensures i in Shifted(at) <==> i > 0 && i - 1 in at
  {
    if i > 0 && i - 1 in at {
      var x :| 0 <= x < |at| && at[x] == i - 1;
      assert Shifted(at)[x] == i;
    }
  }

  lemma PicksLater<T>(xs: seq<T>, ys: seq<T>, at: seq<nat>)
    requires ys != [] && Picks(xs, ys[1..], at)
    ensures Picks(xs, ys, Shifted(at)) && Picks([ys[0]] + xs, ys, [0] + Shifted(at))
  {}

  /** The indices of what is kept. */
  function KeptAt<T>(ys: seq<T>, keep: T -> bool): seq<nat> {
    if ys == [] then []
    else (if keep(ys[0]) then [0] else []) + Shifted(KeptAt(ys[1..], keep))
  }

  lemma {:induction false} KeptAtIff<T>(ys: seq<T>, keep: T -> bool)
    ensures forall i :: 0 <= i < |ys| ==> (keep(ys[i]) <==> i in KeptAt(ys, keep))
  {
    if ys != [] {
      var tail := KeptAt(ys[1..], keep);
      KeptAtIff(ys[1..], keep);
      forall i | 0 <= i < |ys| ensures keep(ys[i]) <==> i in KeptAt(ys, keep) {
        ShiftedHas(tail, i);
        assert i > 0 ==> ys[i] == ys[1..][i-1];
      }
    }
  }

  lemma PickedNext<T>(xs: seq<T>, ys: seq<T>, keep: T -> bool)
    requires ys != [] && Picks(xs, ys[1..], KeptAt(ys[1..], keep))
    ensures Picks((if keep(ys[0]) then [ys[0]] else []) + xs, ys, KeptAt(ys, keep))
  {
    PicksLater(xs, ys, KeptAt(ys[1..], keep));
    assert [] + xs == xs && [] + Shifted(KeptAt(ys[1..], keep)) == Shifted(KeptAt(ys[1..], keep));
  }

  lemma {:induction false} NotNamedPicks(cs: seq<Container>, names: set<string>)
    ensures Picks(NotNamed(cs, names), cs, KeptAt(cs, (c: Container) => c.name !in names))
  {
    if cs != [] {
      NotNamedPicks(cs[1..], names);
      PickedNext(NotNamed(cs[1..], names), cs, (c: Container) => c.name !in names);
      assert [] + NotNamed(cs[1..], names) == NotNamed(cs[1..], names);
    }
  }

  lemma {:induction false} VolumesNotNamedPicks(vs: seq<Volume>, names: set<string>)
    ensures Picks(VolumesNotNamed(vs, names), vs, KeptAt(vs, (v: Volume) => v.name !in names))
  {
    if vs != [] {
      VolumesNotNamedPicks(vs[1..], names);
      PickedNext(VolumesNotNamed(vs[1..], names), vs, (v: Volume) => v.name !in names);
      assert [] + VolumesNotNamed(vs[1..], names) == VolumesNotNamed(vs[1..], names);
    }
  }

  /** The merged containers are the live ones, name by name and in their order, then exactly
      the desired ones whose name is not live, in theirs and as they are. */
  lemma MergedContainersInOrder(live: seq<Container>, desired: seq<Container>) returns (at: seq<nat>)
    ensures var merged := MergedContainers(live, desired);
      && |merged| >= |live|
      && (forall i :: 0 <= i < |live| ==> merged[i].name == live[i].name)
      && Picks(merged[|live|..], desired, at)
      && (forall j :: 0 <= j < |desired| ==>
           (j in at <==> forall i :: 0 <= i < |live| ==> live[i].name != desired[j].name))
  {
    var isNew := (c: Container) => c.name !in ContainerNames(live);
    at := KeptAt(desired, isNew);
    NotNamedPicks(desired, ContainerNames(live));
    KeptAtIff(desired, isNew);
    var merged := MergedContainers(live, desired);
    assert merged[|live|..] == NotNamed(desired, ContainerNames(live));
    forall i | 0 <= i < |live| ensures merged[i].name == live[i].name {
      MergedAt(live, desired, i);
    }
  }

  /** What remains of the live volumes, in their order, then exactly the desired ones whose
      name is not live, in theirs. */
  lemma MergedVolumesInOrder(live: seq<Volume>, desired: seq<Volume>, used: set<string>)
    returns (kept: seq<Volume>, from: seq<nat>, at: seq<nat>)
    ensures kept <= MergedVolumes(live, desired, used)
    ensures |from| == |kept| && forall x :: 0 <= x < |kept| ==> from[x] < |live| && live[from[x]].name == kept[x].name
    ensures forall x, y :: 0 <= x < y < |from| ==> from[x] < from[y]
    ensures Picks(MergedVolumes(live, desired, used)[|kept|..], desired, at)
    ensures forall j :: 0 <= j < |desired| ==> (j in at <==> !Named(live, desired[j].name))
  {
    kept := KeptVolumes(live, desired, used);
    from := KeptFrom(live, desired, used);
    var isNew := (v: Volume) => v.name !in VolumeNames(live);
    at := KeptAt(desired, isNew);
    VolumesNotNamedPicks(desired, VolumeNames(live));
    KeptAtIff(desired, isNew);
    assert MergedVolumes(live, desired, used)[|kept|..] == VolumesNotNamed(desired, VolumeNames(live));
  }

  lemma NextNames(first: seq<Volume>, rest: seq<Volume>, live: seq<Volume>, tail: seq<nat>, from: seq<nat>)
    requires live != [] && |first| <= 1 && |tail| == |rest|
    requires first != [] ==> first[0].name == live[0].name
    requires forall x :: 0 <= x < |rest| ==> tail[x] < |live[1..]| && live[1..][tail[x]].name == rest[x].name
    requires from == (if first == [] then [] else [0]) + Shifted(tail)
    ensures var all := first + rest;
      |from| == |all| && forall x :: 0 <= x < |all| ==> from[x] < |live| && live[from[x]].name == all[x].name
  {}

  lemma {:induction false} KeptFrom(live: seq<Volume>, desired: seq<Volume>, used: set<string>) returns (from: seq<nat>)
    ensures var kept := KeptVolumes(live, desired, used);
      |from| == |kept| && forall x :: 0 <= x < |kept| ==> from[x] < |live| && live[from[x]].name == kept[x].name
    ensures forall x, y :: 0 <= x < y < |from| ==> from[x] < from[y]
  {
    if live == [] {
      from := [];
    } else {
      var tail := KeptFrom(live[1..], desired, used);
      var first := KeptVolume(live[0], desired, used);
      from := (if first == [] then [] else [0 as nat]) + Shifted(tail);
      NextNames(first, KeptVolumes(live[1..], desired, used), live, tail, from);
    }
  }
}
