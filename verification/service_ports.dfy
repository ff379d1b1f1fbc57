/** The identity of a Service port, and which node port is written, said of the fields. */
module ServicePorts {
  import opened Options
  import opened ServiceSpecs

  // ---------- identity ----------

  predicate Digits(s: string) {
    |s| > 0 && forall i :: 0 <= i < |s| ==> '0' <= s[i] <= '9'
  }

  lemma {:induction false} DecimalDigits(n: nat)
    ensures Digits(Decimal(n))
  {
    if n >= 10 {
      DecimalDigits(n / 10);
    }
  }

  lemma {:induction false} DecimalTellsApart(m: nat, n: nat)
    requires Decimal(m) == Decimal(n)
    ensures m == n
  {
    var s := Decimal(m);
    if m < 10 || n < 10 {
      LongDecimal(m);
      LongDecimal(n);
    } else {
      var a, b := Decimal(m / 10), Decimal(n / 10);
      assert a == s[..|s|-1] == b;
      DecimalTellsApart(m / 10, n / 10);
      assert s[|s|-1] == (m % 10 + 48) as char == (n % 10 + 48) as char;
    }
  }

  lemma LongDecimal(n: nat)
    ensures |Decimal(n)| == 1 <==> n < 10
    ensures n < 10 ==> Decimal(n)[0] as int == n + 48
  {
    if n >= 10 {
      DecimalDigits(n / 10);
    }
  }

  predicate NoSlash(s: string) {
    '/' !in s
  }

  /** The same name; or, if neither has one, the same protocol and number. */
  predicate SameIdentity(p: ServicePort, q: ServicePort) {
    p.name == q.name && (p.name == "" ==> p.protocol == q.protocol && p.port == q.port)
  }

  lemma SlashSplits(a: string, x: string, b: string, y: string)
    requires NoSlash(a) && NoSlash(b) && a + "/" + x == b + "/" + y
    ensures a == b && x == y
  {
    if |a| < |b| {
      SlashComesLater(a, x, b, y);
    } else if |b| < |a| {
      SlashComesLater(b, y, a, x);
    } else {
      var s, t := a + "/" + x, b + "/" + y;
      assert a == s[..|a|] && b == t[..|b|];
      assert x == s[|a|+1..] && y == t[|b|+1..];
    }
  }

  lemma SlashComesLater(a: string, x: string, b: string, y: string)
    requires NoSlash(b) && |a| < |b|
    ensures a + "/" + x != b + "/" + y
  {
    assert (a + "/" + x)[|a|] == '/';
    assert (b + "/" + y)[|a|] == b[|a|];
  }

  lemma NoSlashInside(a: string, x: string, b: string)
    requires NoSlash(b)
    ensures a + "/" + x != b
  {
    assert (a + "/" + x)[|a|] == '/';
  }

  /** For names and protocols without a slash, as Kubernetes has them, two ports are keyed
      alike exactly when they have the same identity. */
  lemma KeyedAlikeIff(p: ServicePort, q: ServicePort)
    requires NoSlash(p.name) && NoSlash(q.name) && NoSlash(p.protocol) && NoSlash(q.protocol)
    ensures PortKey(p) == PortKey(q) <==> SameIdentity(p, q)
  {
    if PortKey(p) == PortKey(q) {
      if p.name == "" && q.name == "" {
        SlashSplits(p.protocol, Decimal(p.port), q.protocol, Decimal(q.port));
        DecimalTellsApart(p.port, q.port);
      } else {
        NoSlashInside(p.protocol, Decimal(p.port), q.name);
        NoSlashInside(q.protocol, Decimal(q.port), p.name);
      }
    }
  }

  /** With a slash in a name they may collide: a port named "TCP/80" and the unnamed TCP 80. */
  lemma SlashCollides(p: ServicePort, q: ServicePort)
    requires p.name == "TCP/80" && q.name == "" && q.protocol == "TCP" && q.port == 80
    ensures PortKey(p) == PortKey(q) && !SameIdentity(p, q)
  {
    assert Decimal(80) == Decimal(8) + ['0'] == "80";
  }

  // ---------- the node port that is written ----------

  /** Of several live ports with one key the last one counts. */
  lemma {:induction false} LastPortCounts(ports: seq<ServicePort>, i: nat)
    requires i < |ports| && forall j :: i < j < |ports| ==> PortKey(ports[j]) != PortKey(ports[i])
    ensures LastPort(ports, PortKey(ports[i])) == Some(ports[i])
    decreases |ports|
  {
    if i < |ports| - 1 {
      var shorter := ports[..|ports|-1];
      assert shorter[i] == ports[i] && PortKey(ports[|ports|-1]) != PortKey(ports[i]);
      forall j | i < j < |shorter| ensures PortKey(shorter[j]) != PortKey(shorter[i]) {
        assert shorter[j] == ports[j];
      }
      LastPortCounts(shorter, i);
    }
  }

  /** The update keeps the number of ports and everything about them but the node port. */
  lemma OnlyNodePortsArePreserved(live: ServiceSpec, desired: ServiceSpec, preserve: bool, i: nat)
    requires i < |desired.ports|
    ensures var written := Merged(live, desired, preserve);
      && |written.ports| == |desired.ports|
      && var (w, d) := (written.ports[i], desired.ports[i]);
      && w.name == d.name && w.protocol == d.protocol && w.port == d.port && w.targetPort == d.targetPort
      && (d.nodePort != 0 || !preserve ==> w.nodePort == d.nodePort)
  {}

  /** A node port left open is the one of the last live port of the same identity, or stays
      open when there is none. */
  lemma OpenNodePortIsKept(live: ServiceSpec, desired: ServiceSpec, i: nat, j: nat)
    requires i < |desired.ports| && desired.ports[i].nodePort == 0 && j < |live.ports|
    requires PortKey(live.ports[j]) == PortKey(desired.ports[i])
    requires forall x :: j < x < |live.ports| ==> PortKey(live.ports[x]) != PortKey(desired.ports[i])
    ensures Merged(live, desired, true).ports[i].nodePort == live.ports[j].nodePort
  {
    LastPortCounts(live.ports, j);
  }

  lemma OpenNodePortStaysOpen(live: ServiceSpec, desired: ServiceSpec, i: nat)
    requires i < |desired.ports| && desired.ports[i].nodePort == 0
    requires forall x :: 0 <= x < |live.ports| ==> PortKey(live.ports[x]) != PortKey(desired.ports[i])
    ensures Merged(live, desired, true).ports[i].nodePort == 0
  {
    LastPortFinds(live.ports, PortKey(desired.ports[i]));
  }

  /** What the API does not let a client change is written as it is live. */
  lemma ImmutableFieldsAreKept(live: ServiceSpec, desired: ServiceSpec, preserve: bool)
    ensures var written := Merged(live, desired, preserve);
      && written.clusterIP == live.clusterIP && written.clusterIPs == live.clusterIPs
      && written.ipFamilies == live.ipFamilies && written.ipFamilyPolicy == live.ipFamilyPolicy
      && written.healthCheckNodePort == live.healthCheckNodePort
      && written.loadBalancerClass == live.loadBalancerClass
      && written.kind == desired.kind && written.selector == desired.selector
      && written.externalIPs == desired.externalIPs && written.sessionAffinity == desired.sessionAffinity
  {}
}
