/** The Service drift check: what is preserved from the live Service, what is kept only for
    the comparison, and when an update is followed by another one. */
module ServiceSpecs {
  import opened Options

  datatype ServicePort = ServicePort(name: string, protocol: string, port: nat, targetPort: string, nodePort: nat)

  /** First the fields the desired spec decides alone, then those the live Service always
      keeps, then the optional ones (nil or "" when omitted). */
  datatype ServiceSpec = ServiceSpec(
    kind: string, selector: map<string, string>, ports: seq<ServicePort>, publishNotReadyAddresses: bool,
    clusterIP: string, clusterIPs: seq<string>, ipFamilies: seq<string>, ipFamilyPolicy: Option<string>,
    healthCheckNodePort: nat, loadBalancerClass: Option<string>,
    externalIPs: Option<seq<string>>, loadBalancerSourceRanges: Option<seq<string>>,
    sessionAffinityConfig: Option<nat>, internalTrafficPolicy: Option<string>,
    allocateLoadBalancerNodePorts: Option<bool>, sessionAffinity: string, externalTrafficPolicy: string,
    loadBalancerIP: string, externalName: string)

  // ---------- port identity ----------

  function Decimal(n: nat): string {
    if n < 10 then [(n + 48) as char] else Decimal(n / 10) + [(n % 10 + 48) as char]
  }

  /** A port is its name, or protocol and number when it has none. */
  function PortKey(p: ServicePort): string {
    if p.name != "" then p.name else p.protocol + "/" + Decimal(p.port)
  }

  /** What a Go map filled in list order holds under `key`: the last port with that key. */
  function LastPort(ports: seq<ServicePort>, key: string): (r: Option<ServicePort>)
    ensures r.Some? ==> r.value in ports && PortKey(r.value) == key
  {
    if ports == [] then None
    else if PortKey(ports[|ports|-1]) == key then Some(ports[|ports|-1])
    else LastPort(ports[..|ports|-1], key)
  }

  lemma LastPortFinds(ports: seq<ServicePort>, key: string)
    ensures LastPort(ports, key).Some? <==> exists i :: 0 <= i < |ports| && PortKey(ports[i]) == key
  {
    if ports != [] && PortKey(ports[|ports|-1]) != key {
      LastPortFinds(ports[..|ports|-1], key);
    }
  }

  predicate UniqueKeys(ports: seq<ServicePort>) {
    forall i, j :: 0 <= i < j < |ports| ==> PortKey(ports[i]) != PortKey(ports[j])
  }

  lemma UniqueLastPort(ports: seq<ServicePort>, i: nat)
    requires UniqueKeys(ports) && i < |ports|
    ensures LastPort(ports, PortKey(ports[i])) == Some(ports[i])
  {
    LastPortFinds(ports, PortKey(ports[i]));
    var p := LastPort(ports, PortKey(ports[i])).value;
    var x :| 0 <= x < |ports| && ports[x] == p;
    assert x == i;
  }

  // ---------- the merge ----------

  function PreservedPort(p: ServicePort, live: seq<ServicePort>): ServicePort {
    var current := LastPort(live, PortKey(p));
    if current.Some? && p.nodePort == 0 then p.(nodePort := current.value.nodePort) else p
  }

  function PreservedPorts(ports: seq<ServicePort>, live: seq<ServicePort>): (r: seq<ServicePort>)
    ensures |r| == |ports| && forall i :: 0 <= i < |r| ==> r[i] == PreservedPort(ports[i], live)
  {
    seq(|ports|, i requires 0 <= i < |ports| => PreservedPort(ports[i], live))
  }

  function Merged(live: ServiceSpec, desired: ServiceSpec, preserve: bool): ServiceSpec {
    desired.(
      clusterIP := live.clusterIP, clusterIPs := live.clusterIPs, ipFamilies := live.ipFamilies,
      ipFamilyPolicy := live.ipFamilyPolicy, healthCheckNodePort := live.healthCheckNodePort,
      loadBalancerClass := live.loadBalancerClass,
      ports := if preserve then PreservedPorts(desired.ports, live.ports) else desired.ports)
  }

  method MergeServiceSpecPreservingImmutable(existing: ServiceSpec, desired: ServiceSpec, preserveNodePort: bool)
    returns (merged: ServiceSpec)
    ensures merged == Merged(existing, desired, preserveNodePort)
  {
    merged := desired;
    merged := merged.(clusterIP := existing.clusterIP, clusterIPs := existing.clusterIPs);
    merged := merged.(ipFamilies := existing.ipFamilies, ipFamilyPolicy := existing.ipFamilyPolicy);
    merged := merged.(healthCheckNodePort := existing.healthCheckNodePort,
                      loadBalancerClass := existing.loadBalancerClass);
    if preserveNodePort && |existing.ports| > 0 {
      var existingByKey := IndexPorts(existing.ports);
      var ports := PreservePorts(merged.ports, existingByKey, existing.ports);
      merged := merged.(ports := ports);
    }
    assert merged.ports == Merged(existing, desired, preserveNodePort).ports;
  }

  method IndexPorts(ports: seq<ServicePort>) returns (byKey: map<string, ServicePort>)
    ensures forall k :: k in byKey <==> LastPort(ports, k).Some?
    ensures forall k :: k in byKey ==> LastPort(ports, k) == Some(byKey[k])
  {
    byKey := map[];
    for i := 0 to |ports|
      invariant forall k :: k in byKey <==> LastPort(ports[..i], k).Some?
      invariant forall k :: k in byKey ==> LastPort(ports[..i], k) == Some(byKey[k])
    {
      assert ports[..i+1][..i] == ports[..i];
      byKey := byKey[PortKey(ports[i]) := ports[i]];
    }
    assert ports[..|ports|] == ports;
  }

  method PreservePorts(desired: seq<ServicePort>, byKey: map<string, ServicePort>, ghost live: seq<ServicePort>)
    returns (ports: seq<ServicePort>)
    requires forall k :: k in byKey <==> LastPort(live, k).Some?
    requires forall k :: k in byKey ==> LastPort(live, k) == Some(byKey[k])
    ensures ports == PreservedPorts(desired, live)
  {
    ports := desired;
    for i := 0 to |ports|
      invariant |ports| == |desired|
      invariant forall x :: 0 <= x < i ==> ports[x] == PreservedPort(desired[x], live)
      invariant forall x :: i <= x < |ports| ==> ports[x] == desired[x]
    {
      var key := PortKey(ports[i]);
      if key in byKey && ports[i].nodePort == 0 {
        ports := ports[i := ports[i].(nodePort := byKey[key].nodePort)];
      }
    }
  }

  // ---------- the comparison ----------

  /** Omitted optional fields take the live value, for the comparison only. */
  function NormalizeServiceSpecForDiff(live: ServiceSpec, desired: ServiceSpec): ServiceSpec {
    desired.(
      externalIPs := if desired.externalIPs.None? then live.externalIPs else desired.externalIPs,
      loadBalancerSourceRanges :=
        if desired.loadBalancerSourceRanges.None? then live.loadBalancerSourceRanges
        else desired.loadBalancerSourceRanges,
      sessionAffinityConfig :=
        if desired.sessionAffinityConfig.None? then live.sessionAffinityConfig else desired.sessionAffinityConfig,
      internalTrafficPolicy :=
        if desired.internalTrafficPolicy.None? then live.internalTrafficPolicy else desired.internalTrafficPolicy,
      allocateLoadBalancerNodePorts :=
        if desired.allocateLoadBalancerNodePorts.None? then live.allocateLoadBalancerNodePorts
        else desired.allocateLoadBalancerNodePorts,
      sessionAffinity := if desired.sessionAffinity == "" then live.sessionAffinity else desired.sessionAffinity,
      externalTrafficPolicy :=
        if desired.externalTrafficPolicy == "" then live.externalTrafficPolicy else desired.externalTrafficPolicy,
      loadBalancerIP := if desired.loadBalancerIP == "" then live.loadBalancerIP else desired.loadBalancerIP,
      externalName := if desired.externalName == "" then live.externalName else desired.externalName)
  }

  function CanonicalList(o: Option<seq<string>>): Option<seq<string>> {
    if Elements(o) == [] then None else o
  }

  /** Through JSON and back: a nil and an empty list are the same omitted field. */
  function Canonical(spec: ServiceSpec): ServiceSpec {
    spec.(externalIPs := CanonicalList(spec.externalIPs),
          loadBalancerSourceRanges := CanonicalList(spec.loadBalancerSourceRanges))
  }

  predicate Differs(live: ServiceSpec, desired: ServiceSpec, preserve: bool) {
    Canonical(live) != Canonical(NormalizeServiceSpecForDiff(live, Merged(live, desired, preserve)))
  }

  method ServiceSpecsDiffer(existing: ServiceSpec, desired: ServiceSpec, preserveNodePort: bool) returns (differ: bool)
    ensures differ == Differs(existing, desired, preserveNodePort)
  {
    var merged := MergeServiceSpecPreservingImmutable(existing, desired, preserveNodePort);
    var normalized := NormalizeServiceSpecForDiff(existing, merged);
    differ := Canonical(existing) != Canonical(normalized);
  }

  // ---------- what the comparison decides ----------

  predicate ListKept(want: Option<seq<string>>, has: Option<seq<string>>) {
    want.None? || Elements(want) == Elements(has)
  }

  /** Wanted node ports are as wanted; zero means "whatever the live port of that identity
      has" when node ports are preserved, and zero when they are not. */
  predicate PortConforms(want: ServicePort, has: ServicePort, live: seq<ServicePort>, preserve: bool) {
    && has.(nodePort := 0) == want.(nodePort := 0)
    && has.nodePort ==
      if want.nodePort != 0 || !preserve || LastPort(live, PortKey(want)).None? then want.nodePort
      else LastPort(live, PortKey(want)).value.nodePort
  }

  /** Nothing is said about the fields the live Service always keeps. */
  predicate Conforms(live: ServiceSpec, desired: ServiceSpec, preserve: bool) {
    && live.kind == desired.kind && live.selector == desired.selector
    && live.publishNotReadyAddresses == desired.publishNotReadyAddresses
    && |live.ports| == |desired.ports|
    && (forall i :: 0 <= i < |live.ports| ==> PortConforms(desired.ports[i], live.ports[i], live.ports, preserve))
    && ListKept(desired.externalIPs, live.externalIPs)
    && ListKept(desired.loadBalancerSourceRanges, live.loadBalancerSourceRanges)
    && (desired.sessionAffinityConfig.Some? ==> live.sessionAffinityConfig == desired.sessionAffinityConfig)
    && (desired.internalTrafficPolicy.Some? ==> live.internalTrafficPolicy == desired.internalTrafficPolicy)
    && (desired.allocateLoadBalancerNodePorts.Some? ==>
         live.allocateLoadBalancerNodePorts == desired.allocateLoadBalancerNodePorts)
    && (desired.sessionAffinity != "" ==> live.sessionAffinity == desired.sessionAffinity)
    && (desired.externalTrafficPolicy != "" ==> live.externalTrafficPolicy == desired.externalTrafficPolicy)
    && (desired.loadBalancerIP != "" ==> live.loadBalancerIP == desired.loadBalancerIP)
    && (desired.externalName != "" ==> live.externalName == desired.externalName)
  }

  /** For all Services: no drift exactly when the live one conforms. */
  lemma NoDriftIffConforms(live: ServiceSpec, desired: ServiceSpec, preserve: bool)
    ensures !Differs(live, desired, preserve) <==> Conforms(live, desired, preserve)
  {
    var merged := Merged(live, desired, preserve);
    var x, y := Canonical(live), Canonical(NormalizeServiceSpecForDiff(live, merged));
    PortsAgree(live.ports, desired.ports, preserve);
    assert x.ports == y.ports <==> live.ports == merged.ports;
    ListsAgree(desired.externalIPs, live.externalIPs);
    ListsAgree(desired.loadBalancerSourceRanges, live.loadBalancerSourceRanges);
  }

  lemma ListsAgree(want: Option<seq<string>>, has: Option<seq<string>>)
    ensures CanonicalList(has) == CanonicalList(if want.None? then has else want) <==> ListKept(want, has)
  {}

  lemma PortsAgree(live: seq<ServicePort>, desired: seq<ServicePort>, preserve: bool)
    ensures live == (if preserve then PreservedPorts(desired, live) else desired) <==>
      |live| == |desired| && forall i :: 0 <= i < |live| ==> PortConforms(desired[i], live[i], live, preserve)
  {
    var ports := if preserve then PreservedPorts(desired, live) else desired;
    if |live| == |desired| {
      forall i | 0 <= i < |live|
        ensures live[i] == ports[i] <==> PortConforms(desired[i], live[i], live, preserve)
      {
        assert live[i] == ports[i] <==>
          live[i].(nodePort := 0) == ports[i].(nodePort := 0) && live[i].nodePort == ports[i].nodePort;
      }
      if forall i :: 0 <= i < |live| ==> PortConforms(desired[i], live[i], live, preserve) {
        assert live == ports;
      }
    }
  }

  // ---------- no update loop ----------

  predicate FillsPort(written: ServicePort, stored: ServicePort) {
    && stored.(nodePort := 0) == written.(nodePort := 0)
    && (written.nodePort != 0 ==> stored.nodePort == written.nodePort)
  }

  /** What the API server may do to a written spec: choose the fields the controller never
      sets, fill omitted optional fields, and assign node ports that are zero. */
  predicate Fills(written: ServiceSpec, stored: ServiceSpec) {
    && stored.kind == written.kind && stored.selector == written.selector
    && stored.publishNotReadyAddresses == written.publishNotReadyAddresses
    && |stored.ports| == |written.ports|
    && (forall i :: 0 <= i < |stored.ports| ==> FillsPort(written.ports[i], stored.ports[i]))
    && ListKept(written.externalIPs, stored.externalIPs)
    && ListKept(written.loadBalancerSourceRanges, stored.loadBalancerSourceRanges)
    && (written.sessionAffinityConfig.Some? ==> stored.sessionAffinityConfig == written.sessionAffinityConfig)
    && (written.internalTrafficPolicy.Some? ==> stored.internalTrafficPolicy == written.internalTrafficPolicy)
    && (written.allocateLoadBalancerNodePorts.Some? ==>
         stored.allocateLoadBalancerNodePorts == written.allocateLoadBalancerNodePorts)
    && (written.sessionAffinity != "" ==> stored.sessionAffinity == written.sessionAffinity)
    && (written.externalTrafficPolicy != "" ==> stored.externalTrafficPolicy == written.externalTrafficPolicy)
    && (written.loadBalancerIP != "" ==> stored.loadBalancerIP == written.loadBalancerIP)
    && (written.externalName != "" ==> stored.externalName == written.externalName)
  }

  lemma FilledKeys(written: seq<ServicePort>, stored: seq<ServicePort>, i: nat)
    requires |written| == |stored| && i < |written| && FillsPort(written[i], stored[i])
    ensures PortKey(stored[i]) == PortKey(written[i])
  {
    var s, w := stored[i].(nodePort := 0), written[i].(nodePort := 0);
    assert s.name == w.name && s.protocol == w.protocol && s.port == w.port;
  }

  /** A Service created or updated from any live one and then filled in by the server shows
      no drift afterwards, while node ports are preserved and port identities are unique. */
  lemma NoUpdateLoop(live: ServiceSpec, desired: ServiceSpec, stored: ServiceSpec)
    requires UniqueKeys(desired.ports)
    requires Fills(desired, stored) || Fills(Merged(live, desired, true), stored)
    ensures !Differs(stored, desired, true)
  {
    var written := if Fills(desired, stored) then desired else Merged(live, desired, true);
    forall i | 0 <= i < |desired.ports|
      ensures PortKey(stored.ports[i]) == PortKey(desired.ports[i])
      ensures stored.ports[i].(nodePort := 0) == desired.ports[i].(nodePort := 0)
      ensures desired.ports[i].nodePort != 0 ==> stored.ports[i].nodePort == desired.ports[i].nodePort
    {
      assert FillsPort(written.ports[i], stored.ports[i]);
      FilledKeys(written.ports, stored.ports, i);
    }
    assert UniqueKeys(stored.ports);
    forall i | 0 <= i < |stored.ports|
      ensures PortConforms(desired.ports[i], stored.ports[i], stored.ports, true)
    {
      UniqueLastPort(stored.ports, i);
    }
    NoDriftIffConforms(stored, desired, true);
  }

  /** With reallocation asked for, the Service written last drifts again exactly when the
      server has assigned a node port that was left open. */
  lemma ReallocationDrifts(live: ServiceSpec, desired: ServiceSpec, stored: ServiceSpec)
    requires Fills(desired, stored) || Fills(Merged(live, desired, false), stored)
    ensures Differs(stored, desired, false) <==>
      exists i :: 0 <= i < |desired.ports| && desired.ports[i].nodePort == 0 && stored.ports[i].nodePort != 0
  {
    NoDriftIffConforms(stored, desired, false);
    forall i | 0 <= i < |desired.ports|
      ensures PortConforms(desired.ports[i], stored.ports[i], stored.ports, false) <==>
        (desired.ports[i].nodePort == 0 ==> stored.ports[i].nodePort == 0)
    {
      assert FillsPort(desired.ports[i], stored.ports[i]);
    }
  }

  /** A port field the server fills beyond the node port (such as an omitted target port)
      is drift on every run, whatever the annotation says. */
  lemma FilledTargetPortDrifts(live: ServiceSpec, desired: ServiceSpec, preserve: bool, i: nat)
    requires i < |live.ports| == |desired.ports| && live.ports[i].targetPort != desired.ports[i].targetPort
    ensures Differs(live, desired, preserve)
  {
    NoDriftIffConforms(live, desired, preserve);
    assert live.ports[i].(nodePort := 0).targetPort != desired.ports[i].(nodePort := 0).targetPort;
    assert !PortConforms(desired.ports[i], live.ports[i], live.ports, preserve);
  }

  /** "Omitted means keep" holds for the comparison but not for the write: an update that
      something else triggers clears every optional field that is omitted. */
  lemma OmittedIsKeptByTheCheckOnly(live: ServiceSpec, desired: ServiceSpec, preserve: bool)
    ensures var has, written := Canonical(live), Canonical(Merged(live, desired, preserve));
      var compared := Canonical(NormalizeServiceSpecForDiff(live, Merged(live, desired, preserve)));
      && (desired.externalIPs.None? ==>
           compared.externalIPs == has.externalIPs && written.externalIPs.None?)
      && (desired.loadBalancerSourceRanges.None? ==>
           compared.loadBalancerSourceRanges == has.loadBalancerSourceRanges && written.loadBalancerSourceRanges.None?)
      && (desired.sessionAffinityConfig.None? ==>
           compared.sessionAffinityConfig == has.sessionAffinityConfig && written.sessionAffinityConfig.None?)
      && (desired.internalTrafficPolicy.None? ==>
           compared.internalTrafficPolicy == has.internalTrafficPolicy && written.internalTrafficPolicy.None?)
      && (desired.allocateLoadBalancerNodePorts.None? ==>
           compared.allocateLoadBalancerNodePorts == has.allocateLoadBalancerNodePorts &&
           written.allocateLoadBalancerNodePorts.None?)
      && (desired.sessionAffinity == "" ==>
           compared.sessionAffinity == has.sessionAffinity && written.sessionAffinity == "")
      && (desired.externalTrafficPolicy == "" ==>
           compared.externalTrafficPolicy == has.externalTrafficPolicy && written.externalTrafficPolicy == "")
      && (desired.loadBalancerIP == "" ==>
           compared.loadBalancerIP == has.loadBalancerIP && written.loadBalancerIP == "")
      && (desired.externalName == "" ==>
           compared.externalName == has.externalName && written.externalName == "")
  {}
}
