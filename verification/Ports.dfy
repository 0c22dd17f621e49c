/** Port allocation against the ports a cluster already uses (src/services/port-registry.ts and
    src/services/port-allocator.ts). */
module Ports {
  import opened Wrappers

  const NODEPORT_LO := 30000
  const NODEPORT_HI := 32767
  const SERVICE_PORT_LO := 1024
  const SERVICE_PORT_HI := 65535

  // ------------------------------------------------------------------
  // The port index of a raw Service list
  // ------------------------------------------------------------------

  /** A field is None when it is absent or no number. */
  datatype RawPort = RawPort(port: Option<int>, nodePort: Option<int>)

  datatype RawService = RawService(ns: Option<string>, ports: seq<RawPort>)

  function NamespaceOf(svc: RawService): string {
    if svc.ns.Some? then svc.ns.value else "default"
  }

  predicate UsesPort(svc: RawService, port: int) {
    exists p :: p in svc.ports && p.port == Some(port)
  }

  predicate UsesNodePort(svc: RawService, port: int) {
    exists p :: p in svc.ports && p.nodePort == Some(port)
  }

  predicate PortUsedIn(list: seq<RawService>, ns: string, port: int) {
    exists svc :: svc in list && NamespaceOf(svc) == ns && UsesPort(svc, port)
  }

  predicate NodePortUsed(list: seq<RawService>, port: int) {
    exists svc :: svc in list && UsesNodePort(svc, port)
  }

  datatype ClusterPorts = ClusterPorts(nodePorts: set<int>, servicePorts: map<string, set<int>>)
  {
    function InNamespace(ns: string): set<int> {
      if ns in servicePorts then servicePorts[ns] else {}
    }
  }

  ghost predicate Indexes(c: ClusterPorts, list: seq<RawService>) {
    && (forall p :: p in c.nodePorts <==> NodePortUsed(list, p))
    && (forall ns, p :: p in c.InNamespace(ns) <==> PortUsedIn(list, ns, p))
  }

  lemma UsesSnoc(svc: RawService, ports: seq<RawPort>, i: nat, port: int)
    requires i < |ports|
    ensures UsesPort(svc.(ports := ports[..i + 1]), port)
       <==> UsesPort(svc.(ports := ports[..i]), port) || ports[i].port == Some(port)
    ensures UsesNodePort(svc.(ports := ports[..i + 1]), port)
       <==> UsesNodePort(svc.(ports := ports[..i]), port) || ports[i].nodePort == Some(port)
  {
    assert ports[..i + 1] == ports[..i] + [ports[i]];
  }

  /** The inner loop: add one service's ports to its bucket and to the cluster-wide set. */
  method AddPorts(svc: RawService, bucket: set<int>, nodePorts: set<int>) returns (b: set<int>, n: set<int>)
    ensures forall p :: p in b <==> p in bucket || UsesPort(svc, p)
    ensures forall p :: p in n <==> p in nodePorts || UsesNodePort(svc, p)
  {
    b, n := bucket, nodePorts;
    for i := 0 to |svc.ports|
      invariant forall p :: p in b <==> p in bucket || UsesPort(svc.(ports := svc.ports[..i]), p)
      invariant forall p :: p in n <==> p in nodePorts || UsesNodePort(svc.(ports := svc.ports[..i]), p)
    {
      var p := svc.ports[i];
      forall q { UsesSnoc(svc, svc.ports, i, q); }
      if p.port.Some? {
        b := b + {p.port.value};
      }
      if p.nodePort.Some? {
        n := n + {p.nodePort.value};
      }
    }
    assert svc.ports[..|svc.ports|] == svc.ports;
  }

  method AggregateClusterPorts(list: seq<RawService>) returns (c: ClusterPorts)
    ensures Indexes(c, list)
  {
    var nodePorts: set<int> := {};
    var byNamespace: map<string, set<int>> := map[];
    for i := 0 to |list|
      invariant Indexes(ClusterPorts(nodePorts, byNamespace), list[..i])
    {
      var svc := list[i];
      var ns := NamespaceOf(svc);
      ghost var before := ClusterPorts(nodePorts, byNamespace);
      var bucket := if ns in byNamespace then byNamespace[ns] else {};
      var b, n := AddPorts(svc, bucket, nodePorts);
      assert bucket == before.InNamespace(ns);
      byNamespace := byNamespace[ns := b];
      nodePorts := n;
      ghost var after := ClusterPorts(nodePorts, byNamespace);
      assert forall m :: after.InNamespace(m) == if m == ns then b else before.InNamespace(m);
      IndexSnoc(before, after, list, i);
    }
    assert list[..|list|] == list;
    c := ClusterPorts(nodePorts, byNamespace);
  }

  lemma IndexSnoc(before: ClusterPorts, after: ClusterPorts, list: seq<RawService>, i: nat)
    requires i < |list| && Indexes(before, list[..i])
    requires forall p :: p in after.nodePorts <==> p in before.nodePorts || UsesNodePort(list[i], p)
    requires forall ns, p :: p in after.InNamespace(ns) <==>
               p in before.InNamespace(ns) || (ns == NamespaceOf(list[i]) && UsesPort(list[i], p))
    ensures Indexes(after, list[..i + 1])
  {
    assert list[..i + 1] == list[..i] + [list[i]];
    forall p ensures p in after.nodePorts <==> NodePortUsed(list[..i + 1], p) {
      assert NodePortUsed(list[..i + 1], p) <==> NodePortUsed(list[..i], p) || UsesNodePort(list[i], p);
    }
    forall ns, p ensures p in after.InNamespace(ns) <==> PortUsedIn(list[..i + 1], ns, p) {
      assert PortUsedIn(list[..i + 1], ns, p)
         <==> PortUsedIn(list[..i], ns, p) || (ns == NamespaceOf(list[i]) && UsesPort(list[i], p));
    }
  }

  // ------------------------------------------------------------------
  // The cyclic sweep
  // ------------------------------------------------------------------

  datatype Allocation = Allocation(port: int, original: Option<int>)
  {
    predicate Reassigned() { original.Some? }
  }

  predicate InRange(port: int, lo: int, hi: int) { lo <= port <= hi }

  function StartOf(desired: int, lo: int, hi: int): int {
    if InRange(desired, lo, hi) then desired else lo
  }

  /** How far `port` is from the start of the sweep, going up and around. */
  function Distance(start: int, port: int, lo: int, hi: int): int
    requires lo <= hi
  {
    (port - start) % (hi - lo + 1)
  }

  /** The sweep from `desired` does not come to `port` after `q`. */
  predicate NoFarther(port: int, q: int, desired: int, lo: int, hi: int)
    requires lo <= hi
  {
    Distance(StartOf(desired, lo, hi), port, lo, hi) <= Distance(StartOf(desired, lo, hi), q, lo, hi)
  }

  /** `port` is in range, free, and no free port is closer going up from the start. */
  ghost predicate FirstFree(port: int, desired: int, used: set<int>, lo: int, hi: int) {
    && InRange(port, lo, hi) && port !in used
    && forall q :: InRange(q, lo, hi) && q !in used ==> NoFarther(port, q, desired, lo, hi)
  }

  lemma MultipleInside(d: int, n: int)
    requires n > 0 && -n < d * n < n
    ensures d == 0
  {
    if d >= 1 {
      MulAtLeast(d, n);
    } else if d <= -1 {
      MulAtLeast(-d, n);
    }
  }

  lemma MulAtLeast(a: int, n: int)
    requires a >= 1 && n > 0
    ensures a * n >= n && (-a) * n <= -n
  {
  }

  lemma DivModUnique(x: int, n: int, k: int, r: int)
    requires n > 0 && x == k * n + r && 0 <= r < n
    ensures x % n == r
  {
    var q := x / n;
    assert x == q * n + x % n;
    assert (q - k) * n == r - x % n;
    MultipleInside(q - k, n);
  }

  /** The i-th candidate of the sweep is the one port at distance i. */
  lemma CandidateDistance(start: int, i: int, lo: int, hi: int)
    requires lo <= start <= hi && 0 <= i <= hi - lo
    ensures var c := lo + ((start - lo + i) % (hi - lo + 1));
            InRange(c, lo, hi) && Distance(start, c, lo, hi) == i
  {
    var n := hi - lo + 1;
    if start - lo + i < n {
      DivModUnique(start - lo + i, n, 0, start - lo + i);
      DivModUnique(i, n, 0, i);
    } else {
      DivModUnique(start - lo + i, n, 1, start - lo + i - n);
      DivModUnique(i - n, n, -1, i);
    }
  }

  lemma DistanceIsCandidate(start: int, q: int, lo: int, hi: int)
    requires lo <= start <= hi && lo <= q <= hi
    ensures var i := Distance(start, q, lo, hi);
            0 <= i <= hi - lo && lo + ((start - lo + i) % (hi - lo + 1)) == q
  {
    var n := hi - lo + 1;
    if q >= start {
      DivModUnique(q - start, n, 0, q - start);
      DivModUnique(q - lo, n, 0, q - lo);
    } else {
      DivModUnique(q - start, n, -1, q - start + n);
      DivModUnique(q - lo + n, n, 1, q - lo);
    }
  }

  /** Finds the first free port going up from the desired one and around, or fails exactly when the whole
      range is taken; a port other than the desired one is reported as a reassignment. */
  method AllocatePort(desired: int, used: set<int>, exclude: set<int>, lo: int, hi: int) returns (r: Option<Allocation>)
    ensures r.None? <==> forall p :: InRange(p, lo, hi) ==> p in used + exclude
    ensures r.Some? ==> FirstFree(r.value.port, desired, used + exclude, lo, hi)
    ensures r.Some? ==> r.value.original == if r.value.port == desired then None else Some(desired)
  {
    var inRange := InRange(desired, lo, hi);
    if inRange && desired !in used && desired !in exclude {
      DivModUnique(0, hi - lo + 1, 0, 0);
      forall q | InRange(q, lo, hi) ensures Distance(desired, q, lo, hi) >= 0 {
        DistanceIsCandidate(desired, q, lo, hi);
      }
      return Some(Allocation(desired, None));
    }
    var start := if inRange then desired else lo;
    var total := hi - lo + 1;
    var i := 0;
    while i < total
      invariant 0 <= i && (total > 0 ==> i <= total)
      invariant forall q :: InRange(q, lo, hi) && q !in used + exclude ==> Distance(start, q, lo, hi) >= i
    {
      var candidate := lo + ((start - lo + i) % total);
      CandidateDistance(start, i, lo, hi);
      if candidate !in used && candidate !in exclude {
        return Some(Allocation(candidate, if candidate == desired then None else Some(desired)));
      }
      forall q | InRange(q, lo, hi) && q !in used + exclude ensures Distance(start, q, lo, hi) >= i + 1 {
        DistanceIsCandidate(start, q, lo, hi);
      }
      i := i + 1;
    }
    forall p | InRange(p, lo, hi) ensures p in used + exclude { DistanceIsCandidate(start, p, lo, hi); }
    r := None;
  }

  // ------------------------------------------------------------------
  // A service's expose block
  // ------------------------------------------------------------------

  datatype ExposeType = ClusterIP | NodePort | LoadBalancer

  datatype Expose = Expose(kind: ExposeType, port: int, nodePort: Option<int>)

  datatype Conflict =
    | ServicePortConflict(ns: string, original: int, reassigned: int)
    | NodePortConflict(original: int, reassigned: int)

  datatype ExposeError = NoServicePort | NoNodePort

  predicate WantsNodePort(e: Expose) { e.kind != ClusterIP }

  function DesiredNodePort(e: Expose): int {
    if e.nodePort.Some? then e.nodePort.value else NODEPORT_LO
  }

  method AllocateExposePorts(desired: Expose, ns: string, cluster: ClusterPorts)
    returns (r: Result<(Expose, seq<Conflict>), ExposeError>)
    ensures r == Err(NoServicePort) <==>
              forall p :: InRange(p, SERVICE_PORT_LO, SERVICE_PORT_HI) ==> p in cluster.InNamespace(ns)
    ensures r.Err? ==> r == Err(NoServicePort) || r == Err(NoNodePort)
    ensures r == Err(NoNodePort) <==>
              && r != Err(NoServicePort)
              && WantsNodePort(desired)
              && forall p :: InRange(p, NODEPORT_LO, NODEPORT_HI) ==> p in cluster.nodePorts
    ensures r.Ok? ==>
      var (out, conflicts) := r.value;
      && out.kind == desired.kind
      && FirstFree(out.port, desired.port, cluster.InNamespace(ns), SERVICE_PORT_LO, SERVICE_PORT_HI)
      && (out.nodePort.Some? <==> desired.kind == NodePort || desired.kind == LoadBalancer)
      && (out.nodePort.Some? ==>
            FirstFree(out.nodePort.value, DesiredNodePort(desired), cluster.nodePorts, NODEPORT_LO, NODEPORT_HI))
      && conflicts == (if out.port != desired.port then [ServicePortConflict(ns, desired.port, out.port)] else [])
                    + (if out.nodePort.Some? && desired.nodePort.Some? && out.nodePort != desired.nodePort
                       then [NodePortConflict(desired.nodePort.value, out.nodePort.value)] else [])
  {
    var conflicts: seq<Conflict> := [];
    var port := AllocatePort(desired.port, cluster.InNamespace(ns), {}, SERVICE_PORT_LO, SERVICE_PORT_HI);
    assert cluster.InNamespace(ns) + {} == cluster.InNamespace(ns);
    if port.None? {
      return Err(NoServicePort);
    }
    var out := desired.(port := port.value.port);
    if port.value.Reassigned() {
      conflicts := conflicts + [ServicePortConflict(ns, port.value.original.value, port.value.port)];
    }
    if WantsNodePort(desired) {
      var nodePort := AllocatePort(DesiredNodePort(desired), cluster.nodePorts, {}, NODEPORT_LO, NODEPORT_HI);
      assert cluster.nodePorts + {} == cluster.nodePorts;
      if nodePort.None? {
        return Err(NoNodePort);
      }
      out := out.(nodePort := Some(nodePort.value.port));
      if desired.nodePort.Some? && nodePort.value.Reassigned() {
        conflicts := conflicts + [NodePortConflict(desired.nodePort.value, nodePort.value.port)];
      }
    } else {
      out := out.(nodePort := None);
    }
    r := Ok((out, conflicts));
  }

  // ------------------------------------------------------------------
  // From the raw list to the chosen ports
  // ------------------------------------------------------------------

  /** In range, used by no service of the namespace, and the first such port going up from the desired one
      and around. */
  ghost predicate FirstUnused(list: seq<RawService>, ns: string, port: int, desired: int) {
    && InRange(port, SERVICE_PORT_LO, SERVICE_PORT_HI) && !PortUsedIn(list, ns, port)
    && forall q :: InRange(q, SERVICE_PORT_LO, SERVICE_PORT_HI) && !PortUsedIn(list, ns, q) ==>
                     NoFarther(port, q, desired, SERVICE_PORT_LO, SERVICE_PORT_HI)
  }

  /** The same for NodePorts, which the whole cluster shares. */
  ghost predicate FirstUnusedNodePort(list: seq<RawService>, port: int, desired: int) {
    && InRange(port, NODEPORT_LO, NODEPORT_HI) && !NodePortUsed(list, port)
    && forall q :: InRange(q, NODEPORT_LO, NODEPORT_HI) && !NodePortUsed(list, q) ==>
                     NoFarther(port, q, desired, NODEPORT_LO, NODEPORT_HI)
  }

  lemma FirstFreeIsUnused(cluster: ClusterPorts, list: seq<RawService>, ns: string, port: int, desired: int)
    requires Indexes(cluster, list)
    requires FirstFree(port, desired, cluster.InNamespace(ns), SERVICE_PORT_LO, SERVICE_PORT_HI)
    ensures FirstUnused(list, ns, port, desired)
  {
    assert forall p :: p in cluster.InNamespace(ns) <==> PortUsedIn(list, ns, p);
  }

  lemma FirstFreeNodePortIsUnused(cluster: ClusterPorts, list: seq<RawService>, port: int, desired: int)
    requires Indexes(cluster, list)
    requires FirstFree(port, desired, cluster.nodePorts, NODEPORT_LO, NODEPORT_HI)
    ensures FirstUnusedNodePort(list, port, desired)
  {
  }

  /** Index the cluster, then allocate: both ports are the first in cyclic order that no listed service uses,
      the NodePort in the whole cluster; allocation fails exactly when a range is exhausted, and the conflicts
      are the operator's own picks that had to move. */
  method AllocateFromList(list: seq<RawService>, desired: Expose, ns: string)
    returns (r: Result<(Expose, seq<Conflict>), ExposeError>)
    ensures r.Ok? ==>
      var (out, conflicts) := r.value;
      && out.kind == desired.kind && FirstUnused(list, ns, out.port, desired.port)
      && (out.nodePort.Some? <==> desired.kind == NodePort || desired.kind == LoadBalancer)
      && (out.nodePort.Some? ==> FirstUnusedNodePort(list, out.nodePort.value, DesiredNodePort(desired)))
      && conflicts == (if out.port != desired.port then [ServicePortConflict(ns, desired.port, out.port)] else [])
                    + (if out.nodePort.Some? && desired.nodePort.Some? && out.nodePort != desired.nodePort
                       then [NodePortConflict(desired.nodePort.value, out.nodePort.value)] else [])
    ensures r.Err? <==>
      || (forall p :: InRange(p, SERVICE_PORT_LO, SERVICE_PORT_HI) ==> PortUsedIn(list, ns, p))
      || (WantsNodePort(desired) && forall p :: InRange(p, NODEPORT_LO, NODEPORT_HI) ==> NodePortUsed(list, p))
  {
    var cluster := AggregateClusterPorts(list);
    r := AllocateExposePorts(desired, ns, cluster);
    assert forall p :: p in cluster.InNamespace(ns) <==> PortUsedIn(list, ns, p);
    if r.Ok? {
      var out := r.value.0;
      FirstFreeIsUnused(cluster, list, ns, out.port, desired.port);
      if out.nodePort.Some? {
        FirstFreeNodePortIsUnused(cluster, list, out.nodePort.value, DesiredNodePort(desired));
      }
    }
  }

  // ------------------------------------------------------------------
  // Which port that is
  // ------------------------------------------------------------------

  /** The first free port is the next one above, or the lowest of all when everything from the start up is taken. */
  lemma FirstFreeIsTheNextAbove(port: int, desired: int, used: set<int>, lo: int, hi: int)
    requires lo <= port <= hi && port !in used
    ensures var start := if lo <= desired <= hi then desired else lo;
            FirstFree(port, desired, used, lo, hi)
            <==> if port >= start then forall q :: start <= q < port ==> q in used
                 else forall q :: start <= q <= hi || lo <= q < port ==> q in used
  {
    var start := if lo <= desired <= hi then desired else lo;
    hide Distance;
    forall q | lo <= q <= hi
      ensures Distance(start, q, lo, hi) == if q >= start then q - start else q - start + hi - lo + 1
    {
      DistanceUpwards(start, q, lo, hi);
    }
    assert forall q :: InRange(q, lo, hi) && q !in used ==>
        (NoFarther(port, q, desired, lo, hi)
         <==> Distance(start, port, lo, hi) <= Distance(start, q, lo, hi));
  }

  lemma DistanceUpwards(start: int, q: int, lo: int, hi: int)
    requires lo <= start <= hi && lo <= q <= hi
    ensures Distance(start, q, lo, hi) == if q >= start then q - start else q - start + hi - lo + 1
  {
    var n := hi - lo + 1;
    if q >= start { DivModUnique(q - start, n, 0, q - start); } else { DivModUnique(q - start, n, -1, q - start + n); }
  }

  /** So an unused port that was asked for is kept, and a service that asks for no NodePort gets the lowest unused one
      from 30000 on. */
  lemma NodePortIs(list: seq<RawService>, port: int, e: Expose)
    requires FirstUnusedNodePort(list, port, DesiredNodePort(e))
    ensures 30000 <= port <= 32767 && !NodePortUsed(list, port)
    ensures e.nodePort == None ==> forall q :: 30000 <= q < port ==> NodePortUsed(list, q)
    ensures e.nodePort.Some? && 30000 <= e.nodePort.value <= 32767 && !NodePortUsed(list, e.nodePort.value) ==>
              port == e.nodePort.value
  {
    var used := set q | NODEPORT_LO <= q <= NODEPORT_HI && NodePortUsed(list, q);
    assert FirstFree(port, DesiredNodePort(e), used, NODEPORT_LO, NODEPORT_HI);
    FirstFreeIsTheNextAbove(port, DesiredNodePort(e), used, NODEPORT_LO, NODEPORT_HI);
    assert forall q :: NODEPORT_LO <= q <= NODEPORT_HI ==> (q in used <==> NodePortUsed(list, q));
  }

  /** Likewise the service port: 1024 is the first, and a wish out of range counts as none. */
  lemma ServicePortIs(list: seq<RawService>, ns: string, port: int, desired: int)
    requires FirstUnused(list, ns, port, desired)
    ensures 1024 <= port <= 65535 && !PortUsedIn(list, ns, port)
    ensures !(1024 <= desired <= 65535) ==> forall q :: 1024 <= q < port ==> PortUsedIn(list, ns, q)
    ensures 1024 <= desired <= 65535 && !PortUsedIn(list, ns, desired) ==> port == desired
  {
    var used := set q | SERVICE_PORT_LO <= q <= SERVICE_PORT_HI && PortUsedIn(list, ns, q);
    assert FirstFree(port, desired, used, SERVICE_PORT_LO, SERVICE_PORT_HI);
    FirstFreeIsTheNextAbove(port, desired, used, SERVICE_PORT_LO, SERVICE_PORT_HI);
    assert forall q :: SERVICE_PORT_LO <= q <= SERVICE_PORT_HI ==> (q in used <==> PortUsedIn(list, ns, q));
  }

  /** A service listed without a namespace counts as one of `default`, and with one as its own. */
  lemma UnnamedIsDefault(list: seq<RawService>, svc: RawService, ns: string, port: int)
    ensures PortUsedIn(list + [svc], ns, port)
       <==> || PortUsedIn(list, ns, port)
            || ((svc.ns == Some(ns) || (svc.ns == None && ns == "default"))
                && exists p :: p in svc.ports && p.port == Some(port))
    ensures NodePortUsed(list + [svc], port)
       <==> NodePortUsed(list, port) || exists p :: p in svc.ports && p.nodePort == Some(port)
  {
    var more := list + [svc];
    assert forall s :: s in more <==> s in list || s == svc;
    assert svc.ns == None || svc.ns.Some?;
    assert NamespaceOf(svc) == ns <==> svc.ns == Some(ns) || (svc.ns == None && ns == "default");
    assert PortUsedIn(more, ns, port)
      <==> PortUsedIn(list, ns, port) || (NamespaceOf(svc) == ns && UsesPort(svc, port));
    assert NodePortUsed(more, port) <==> NodePortUsed(list, port) || UsesNodePort(svc, port);
  }
}
