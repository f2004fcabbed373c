/**
 Discovery in internal/controller/originpool_controller.go: resolving every
 `discover` entry of a pool, the index over those entries, and the two mappers
 that turn a cluster change into pools to reconcile.
 */
module Discovery {
  import opened Wrappers
  import opened OriginPoolTypes
  import opened OriginResolver

  datatype Name = Name(namespace: string, name: string)

  /** One snapshot of what the resolvers read. `nodes` is `None` when listing nodes fails. */
  datatype Cluster = Cluster(
    services: map<Name, Service>,
    nodes: Option<seq<Node>>,
    ingresses: map<Name, Ingress>,
    gateways: map<Name, Gateway>,
    routes: map<Name, Route>)

  /** A stored pool: its Kubernetes name and its spec. */
  datatype Pool = Pool(id: Name, spec: OriginPoolSpec)

  const SERVICE := "Service"
  const INGRESS := "Ingress"
  const GATEWAY := "Gateway"
  const ROUTE := "Route"

  // ----- Resolution -----

  /** The resource an entry points at: an empty namespace means the pool's own. */
  function Target(ref: ResourceRef, poolNamespace: string): ResourceRef {
    ref.(namespace := if ref.namespace == "" then poolNamespace else ref.namespace)
  }

  function ResolveResource(isIP: string -> bool, cluster: Cluster, target: ResourceRef): ResolvedOrigin {
    var key := Name(target.namespace, target.name);
    if target.kind == SERVICE then
      if key !in cluster.services then PENDING
      else
        var svc := cluster.services[key];
        if svc.serviceType.NodePort? then
          if cluster.nodes.None? then PENDING else ResolveService(isIP, svc, cluster.nodes.value)
        else ResolveService(isIP, svc, [])
    else if target.kind == INGRESS then
      if key in cluster.ingresses then ResolveIngress(isIP, cluster.ingresses[key]) else PENDING
    else if target.kind == GATEWAY then
      if key in cluster.gateways then ResolveGateway(isIP, cluster.gateways[key]) else PENDING
    else if target.kind == ROUTE then
      if key in cluster.routes then RouteOrigin(cluster.routes[key]) else PENDING
    else PENDING
  }

  /** The cluster holds the object an entry points at. */
  predicate Exists(cluster: Cluster, target: ResourceRef) {
    var key := Name(target.namespace, target.name);
    || (target.kind == SERVICE && key in cluster.services)
    || (target.kind == INGRESS && key in cluster.ingresses)
    || (target.kind == GATEWAY && key in cluster.gateways)
    || (target.kind == ROUTE && key in cluster.routes)
  }

  function FinalOrigin(isIP: string -> bool, cluster: Cluster, poolNamespace: string, d: Discover): ResolvedOrigin {
    ResolveDiscover(isIP, d, ResolveResource(isIP, cluster, Target(d.resource, poolNamespace)))
  }

  function OriginOf(isIP: string -> bool, cluster: Cluster, poolNamespace: string, s: OriginServer): Option<ResolvedOrigin> {
    if s.discover.None? then None
    else
      var final := FinalOrigin(isIP, cluster, poolNamespace, s.discover.value);
      if final.pending then None else Some(final)
  }

  function StatusEntry(isIP: string -> bool, cluster: Cluster, poolNamespace: string, d: Discover): DiscoveredOrigin {
    var final := FinalOrigin(isIP, cluster, poolNamespace, d);
    var target := Target(d.resource, poolNamespace);
    if final.pending then DiscoveredOrigin(target, "", 0, Unset, false)
    else DiscoveredOrigin(target, final.address, final.port, final.addressType, true)
  }

  function StatusEntries(isIP: string -> bool, cluster: Cluster, poolNamespace: string, servers: seq<OriginServer>): seq<DiscoveredOrigin> {
    if servers == [] then []
    else
      var init := StatusEntries(isIP, cluster, poolNamespace, servers[..|servers| - 1]);
      var last := servers[|servers| - 1];
      if last.discover.None? then init else init + [StatusEntry(isIP, cluster, poolNamespace, last.discover.value)]
  }

  predicate NonePending(isIP: string -> bool, cluster: Cluster, poolNamespace: string, servers: seq<OriginServer>) {
    forall i | 0 <= i < |servers| :: servers[i].discover.Some? ==> OriginOf(isIP, cluster, poolNamespace, servers[i]).Some?
  }

  function ResolveAll(isIP: string -> bool, cluster: Cluster, pool: Pool): DiscoveryResult {
    var servers := pool.spec.originServers;
    var ns := pool.id.namespace;
    DiscoveryResult(
      seq(|servers|, i requires 0 <= i < |servers| => OriginOf(isIP, cluster, ns, servers[i])),
      StatusEntries(isIP, cluster, ns, servers),
      NonePending(isIP, cluster, ns, servers))
  }

  /**
   One entry's resource, looked up in the cluster. Only the four known kinds resolve,
   only while the object exists and, behind a NodePort service, while nodes can be listed.
   */
  method ResolveResourceNow(isIP: string -> bool, cluster: Cluster, target: ResourceRef) returns (r: ResolvedOrigin)
    ensures r == ResolveResource(isIP, cluster, target)
    ensures !r.pending ==> Exists(cluster, target)
  {
    var key := Name(target.namespace, target.name);
    if target.kind == SERVICE {
      if key !in cluster.services {
        return PENDING;
      }
      var svc := cluster.services[key];
      if !svc.serviceType.NodePort? {
        return ResolveService(isIP, svc, []);
      }
      if cluster.nodes.None? {
        return PENDING;
      }
      if |svc.externalIPs| > 0 {
        return ResolveService(isIP, svc, cluster.nodes.value);
      }
      r := ResolveNodePort(svc, cluster.nodes.value);
    } else if target.kind == INGRESS {
      return if key in cluster.ingresses then ResolveIngress(isIP, cluster.ingresses[key]) else PENDING;
    } else if target.kind == GATEWAY {
      return if key in cluster.gateways then ResolveGateway(isIP, cluster.gateways[key]) else PENDING;
    } else if target.kind == ROUTE {
      if key !in cluster.routes {
        return PENDING;
      }
      r := ResolveRoute(cluster.routes[key]);
    } else {
      return PENDING;
    }
  }

  // ----- One entry, by the fields of the pool and the cluster -----

  /** What the cluster has to say about the object of this kind and name, before overrides. */
  predicate IsRaw(isIP: string -> bool, cluster: Cluster, kind: string, key: Name, r: ResolvedOrigin) {
    if kind == "Service" && key in cluster.services && (cluster.services[key].serviceType.NodePort? ==> cluster.nodes.Some?) then
      r == ResolveService(isIP, cluster.services[key], if cluster.services[key].serviceType.NodePort? then cluster.nodes.value else [])
    else if kind == "Ingress" && key in cluster.ingresses then r == ResolveIngress(isIP, cluster.ingresses[key])
    else if kind == "Gateway" && key in cluster.gateways then r == ResolveGateway(isIP, cluster.gateways[key])
    else if kind == "Route" && key in cluster.routes then r == RouteOrigin(cluster.routes[key])
    else r.pending
  }

  /** An entry's resolved origin, if any, and what is published about it. */
  ghost predicate IsEntry(isIP: string -> bool, cluster: Cluster, poolNamespace: string, d: Discover, entry: Option<ResolvedOrigin>, status: DiscoveredOrigin) {
    var ns := if d.resource.namespace == "" then poolNamespace else d.resource.namespace;
    && status.resource == ResourceRef(d.resource.kind, d.resource.name, ns)
    && (status.resolved <==> entry.Some?)
    && (if entry.None? then status.address == "" && status.port == 0 && status.addressType.Unset?
        else status.address == entry.value.address && status.port == entry.value.port && status.addressType == entry.value.addressType)
    && exists raw, final ::
         && IsRaw(isIP, cluster, d.resource.kind, Name(ns, d.resource.name), raw)
         && IsOverridden(isIP, d, raw, final)
         && entry == if final.pending then None else Some(final)
  }

  lemma RawByKind(isIP: string -> bool, cluster: Cluster, target: ResourceRef)
    ensures IsRaw(isIP, cluster, target.kind, Name(target.namespace, target.name), ResolveResource(isIP, cluster, target))
  {
    assert |"Service"| == |"Ingress"| == |"Gateway"| == 7 && |"Route"| == 5;
    assert "Service"[0] == 'S' && "Ingress"[0] == 'I' && "Gateway"[0] == 'G';
  }

  /** The origin and the published status of every discover entry come from the object the entry names, in the namespace it names. */
  lemma EntryByItsFields(isIP: string -> bool, cluster: Cluster, poolNamespace: string, s: OriginServer)
    requires s.discover.Some?
    ensures IsEntry(isIP, cluster, poolNamespace, s.discover.value,
                    OriginOf(isIP, cluster, poolNamespace, s), StatusEntry(isIP, cluster, poolNamespace, s.discover.value))
  {
    var d := s.discover.value;
    var target := Target(d.resource, poolNamespace);
    var raw := ResolveResource(isIP, cluster, target);
    var final := ResolveDiscover(isIP, d, raw);
    RawByKind(isIP, cluster, target);
    assert IsRaw(isIP, cluster, d.resource.kind, Name(target.namespace, d.resource.name), raw);
    assert IsOverridden(isIP, d, raw, final);
  }

  function At<V>(m: map<Name, V>, key: Name): Option<V> {
    if key in m then Some(m[key]) else None
  }

  /** The two snapshots show the same under this kind and name. */
  predicate SameObject(a: Cluster, b: Cluster, kind: string, key: Name) {
    && (kind == "Service" ==> At(a.services, key) == At(b.services, key))
    && (kind == "Ingress" ==> At(a.ingresses, key) == At(b.ingresses, key))
    && (kind == "Gateway" ==> At(a.gateways, key) == At(b.gateways, key))
    && (kind == "Route" ==> At(a.routes, key) == At(b.routes, key))
  }

  /** Nothing but that one object, and the nodes, decides an entry. */
  lemma EntryDependsOnItsObject(isIP: string -> bool, a: Cluster, b: Cluster, poolNamespace: string, s: OriginServer)
    requires s.discover.Some? && a.nodes == b.nodes
    requires var r := s.discover.value.resource;
             SameObject(a, b, r.kind, Name(if r.namespace == "" then poolNamespace else r.namespace, r.name))
    ensures OriginOf(isIP, a, poolNamespace, s) == OriginOf(isIP, b, poolNamespace, s)
    ensures StatusEntry(isIP, a, poolNamespace, s.discover.value) == StatusEntry(isIP, b, poolNamespace, s.discover.value)
  {
    assert |"Service"| == |"Ingress"| == |"Gateway"| == 7 && |"Route"| == 5;
    assert "Service"[0] == 'S' && "Ingress"[0] == 'I' && "Gateway"[0] == 'G';
  }

  method ResolveEntry(isIP: string -> bool, cluster: Cluster, poolNamespace: string, s: OriginServer)
    returns (entry: Option<ResolvedOrigin>, status: DiscoveredOrigin)
    requires s.discover.Some?
    ensures status == StatusEntry(isIP, cluster, poolNamespace, s.discover.value)
    ensures entry == OriginOf(isIP, cluster, poolNamespace, s)
    ensures IsEntry(isIP, cluster, poolNamespace, s.discover.value, entry, status)
    ensures status.resolved <==> entry.Some?
  {
    var d := s.discover.value;
    var target := Target(d.resource, poolNamespace);
    var raw := ResolveResourceNow(isIP, cluster, target);
    var final := ResolveDiscover(isIP, d, raw);
    EntryByItsFields(isIP, cluster, poolNamespace, s);
    entry, status := None, DiscoveredOrigin(target, "", 0, Unset, true);
    if final.pending {
      status := status.(resolved := false);
    } else {
      status := status.(address := final.address, port := final.port, addressType := final.addressType);
      entry := Some(final);
    }
  }

  lemma EntriesGrow(isIP: string -> bool, cluster: Cluster, ns: string, servers: seq<OriginServer>, i: nat)
    requires i < |servers|
    ensures StatusEntries(isIP, cluster, ns, servers[..i + 1])
         == StatusEntries(isIP, cluster, ns, servers[..i])
            + if servers[i].discover.None? then [] else [StatusEntry(isIP, cluster, ns, servers[i].discover.value)]
  {
    assert servers[..i + 1][..i] == servers[..i];
  }

  /** What the loop has collected is right for the first `i` origin servers. */
  predicate ResolvedUpTo(isIP: string -> bool, cluster: Cluster, ns: string, servers: seq<OriginServer>, i: nat, d: DiscoveryResult) {
    && |d.origins| == i <= |servers|
    && (forall k | 0 <= k < i :: d.origins[k] == OriginOf(isIP, cluster, ns, servers[k]))
    && d.discovered == StatusEntries(isIP, cluster, ns, servers[..i])
    && (d.allResolved <==> forall k | 0 <= k < i :: servers[k].discover.Some? ==> d.origins[k].Some?)
  }

  lemma OneMoreResolved(isIP: string -> bool, cluster: Cluster, ns: string, servers: seq<OriginServer>, i: nat, d: DiscoveryResult, d': DiscoveryResult)
    requires ResolvedUpTo(isIP, cluster, ns, servers, i, d) && i < |servers|
    requires d'.origins == d.origins + [OriginOf(isIP, cluster, ns, servers[i])]
    requires d'.discovered == d.discovered
                           + if servers[i].discover.None? then [] else [StatusEntry(isIP, cluster, ns, servers[i].discover.value)]
    requires d'.allResolved <==> d.allResolved && (servers[i].discover.Some? ==> OriginOf(isIP, cluster, ns, servers[i]).Some?)
    ensures ResolvedUpTo(isIP, cluster, ns, servers, i + 1, d')
  {
    EntriesGrow(isIP, cluster, ns, servers, i);
  }

  lemma Assembled(isIP: string -> bool, cluster: Cluster, pool: Pool, d: DiscoveryResult)
    requires ResolvedUpTo(isIP, cluster, pool.id.namespace, pool.spec.originServers, |pool.spec.originServers|, d)
    ensures d == ResolveAll(isIP, cluster, pool)
  {
    assert pool.spec.originServers[..|pool.spec.originServers|] == pool.spec.originServers;
  }

  method ResolveAllOrigins(isIP: string -> bool, cluster: Cluster, pool: Pool) returns (d: DiscoveryResult)
    ensures d == ResolveAll(isIP, cluster, pool)
    ensures IsDiscovery(isIP, cluster, pool, d)
  {
    var servers, ns := pool.spec.originServers, pool.id.namespace;
    d := DiscoveryResult([], [], true);
    for i := 0 to |servers|
      invariant ResolvedUpTo(isIP, cluster, ns, servers, i, d)
    {
      ghost var before := d;
      if servers[i].discover.None? {
        d := d.(origins := d.origins + [None]);
      } else {
        var entry, status := ResolveEntry(isIP, cluster, ns, servers[i]);
        d := DiscoveryResult(d.origins + [entry], d.discovered + [status], d.allResolved && status.resolved);
      }
      OneMoreResolved(isIP, cluster, ns, servers, i, before, d);
    }
    Assembled(isIP, cluster, pool, d);
    DiscoveryByItsFields(isIP, cluster, pool);
  }

  /** The discovery of a whole pool, position by position. */
  ghost predicate IsDiscovery(isIP: string -> bool, cluster: Cluster, pool: Pool, found: DiscoveryResult) {
    var servers := pool.spec.originServers;
    && |found.origins| == |servers|
    && (forall i | 0 <= i < |servers| ::
          if servers[i].discover.None? then found.origins[i].None?
          else exists status :: IsEntry(isIP, cluster, pool.id.namespace, servers[i].discover.value, found.origins[i], status))
    && (found.allResolved <==> forall i | 0 <= i < |servers| && servers[i].discover.Some? :: found.origins[i].Some?)
    && IsPublished(isIP, cluster, pool, found)
  }

  /** The published list: one element per discover entry, in their order, saying what was found for it. */
  ghost predicate IsPublished(isIP: string -> bool, cluster: Cluster, pool: Pool, found: DiscoveryResult)
    requires |found.origins| == |pool.spec.originServers|
  {
    var servers, ps := pool.spec.originServers, DiscoverPositions(pool.spec.originServers);
    && |found.discovered| == |ps|
    && forall k | 0 <= k < |ps| ::
         IsEntry(isIP, cluster, pool.id.namespace, servers[ps[k]].discover.value, found.origins[ps[k]], found.discovered[k])
  }

  lemma PublishedByItsFields(isIP: string -> bool, cluster: Cluster, pool: Pool)
    ensures IsPublished(isIP, cluster, pool, ResolveAll(isIP, cluster, pool))
  {
    var servers, ns := pool.spec.originServers, pool.id.namespace;
    var found, ps := ResolveAll(isIP, cluster, pool), DiscoverPositions(servers);
    PublishedByPosition(isIP, cluster, ns, servers);
    forall k | 0 <= k < |ps|
      ensures IsEntry(isIP, cluster, ns, servers[ps[k]].discover.value, found.origins[ps[k]], found.discovered[k])
    {
      EntryByItsFields(isIP, cluster, ns, servers[ps[k]]);
    }
  }

  lemma DiscoveryByItsFields(isIP: string -> bool, cluster: Cluster, pool: Pool)
    ensures IsDiscovery(isIP, cluster, pool, ResolveAll(isIP, cluster, pool))
  {
    var servers, ns := pool.spec.originServers, pool.id.namespace;
    var found := ResolveAll(isIP, cluster, pool);
    PublishedByItsFields(isIP, cluster, pool);
    forall i | 0 <= i < |servers|
      ensures found.origins[i] == OriginOf(isIP, cluster, ns, servers[i])
      ensures servers[i].discover.Some? ==>
                exists status :: IsEntry(isIP, cluster, ns, servers[i].discover.value, found.origins[i], status)
    {
      if servers[i].discover.Some? {
        EntryByItsFields(isIP, cluster, ns, servers[i]);
      }
    }
  }

  /** Positions of the discover entries, in order. */
  function DiscoverPositions(servers: seq<OriginServer>): (ps: seq<nat>)
    ensures forall k | 0 <= k < |ps| :: ps[k] < |servers| && servers[ps[k]].discover.Some?
    ensures forall k, m | 0 <= k < m < |ps| :: ps[k] < ps[m]
    ensures forall i | 0 <= i < |servers| && servers[i].discover.Some? :: i in ps
  {
    if servers == [] then []
    else
      var init := DiscoverPositions(servers[..|servers| - 1]);
      assert forall i | 0 <= i < |servers| - 1 :: servers[..|servers| - 1][i] == servers[i];
      if servers[|servers| - 1].discover.None? then init else init + [|servers| - 1]
  }

  lemma {:induction false} PublishedByPosition(isIP: string -> bool, cluster: Cluster, ns: string, servers: seq<OriginServer>)
    ensures |StatusEntries(isIP, cluster, ns, servers)| == |DiscoverPositions(servers)|
    ensures forall k | 0 <= k < |DiscoverPositions(servers)| ::
              StatusEntries(isIP, cluster, ns, servers)[k]
              == StatusEntry(isIP, cluster, ns, servers[DiscoverPositions(servers)[k]].discover.value)
  {
    if servers != [] {
      var n := |servers| - 1;
      var init := servers[..n];
      PublishedByPosition(isIP, cluster, ns, init);
      var ps, before := DiscoverPositions(servers), DiscoverPositions(init);
      assert ps == if servers[n].discover.None? then before else before + [n];
      forall k | 0 <= k < |before|
        ensures StatusEntries(isIP, cluster, ns, init)[k] == StatusEntry(isIP, cluster, ns, servers[before[k]].discover.value)
      {
        assert init[before[k]] == servers[before[k]];
      }
    }
  }

  predicate AllResolved(es: seq<DiscoveredOrigin>) {
    forall k | 0 <= k < |es| :: es[k].resolved
  }

  /** Nothing is pending exactly when every published element is resolved. */
  lemma {:induction false} PublishedCompletely(isIP: string -> bool, cluster: Cluster, ns: string, servers: seq<OriginServer>)
    ensures NonePending(isIP, cluster, ns, servers) <==> AllResolved(StatusEntries(isIP, cluster, ns, servers))
  {
    if servers != [] {
      var n := |servers| - 1;
      PublishedCompletely(isIP, cluster, ns, servers[..n]);
      var es, init := StatusEntries(isIP, cluster, ns, servers), StatusEntries(isIP, cluster, ns, servers[..n]);
      LastNonePending(isIP, cluster, ns, servers);
      assert servers[n].discover.Some? ==> es[..|es| - 1] == init;
      assert AllResolved(es) <==> AllResolved(init) && (servers[n].discover.Some? ==> es[|es| - 1].resolved);
    }
  }

  lemma LastNonePending(isIP: string -> bool, cluster: Cluster, ns: string, servers: seq<OriginServer>)
    requires servers != []
    ensures var n := |servers| - 1;
            NonePending(isIP, cluster, ns, servers)
            <==> NonePending(isIP, cluster, ns, servers[..n])
                 && (servers[n].discover.Some? ==> OriginOf(isIP, cluster, ns, servers[n]).Some?)
  {
    var n := |servers| - 1;
    assert forall i | 0 <= i < n :: servers[..n][i] == servers[i];
  }

  /**
   The published list is the image of the discover entries, in their order, one
   each; its k-th element agrees with the origin resolved for that entry, and the
   pool is completely resolved exactly when no published element is pending.
   */
  lemma {:induction false} PublishedInOrder(isIP: string -> bool, cluster: Cluster, ns: string, servers: seq<OriginServer>)
    ensures |StatusEntries(isIP, cluster, ns, servers)| == |DiscoverPositions(servers)|
    ensures forall k | 0 <= k < |DiscoverPositions(servers)| ::
              StatusEntries(isIP, cluster, ns, servers)[k]
              == StatusEntry(isIP, cluster, ns, servers[DiscoverPositions(servers)[k]].discover.value)
    ensures NonePending(isIP, cluster, ns, servers)
       <==> AllResolved(StatusEntries(isIP, cluster, ns, servers))
  {
    PublishedCompletely(isIP, cluster, ns, servers);
    PublishedByPosition(isIP, cluster, ns, servers);
  }

  // ----- The index and the mappers -----

  function IndexKey(ref: ResourceRef): string {
    ref.kind + "/" + ref.namespace + "/" + ref.name
  }

  predicate SlashFree(s: string) {
    '/' !in s
  }

  function Slashes(s: string): nat {
    if s == "" then 0 else (if s[0] == '/' then 1 else 0) + Slashes(s[1..])
  }

  lemma {:induction false} SlashesOfConcat(a: string, b: string)
    ensures Slashes(a + b) == Slashes(a) + Slashes(b)
  {
    if a == "" {
      assert a + b == b;
    } else {
      SlashesOfConcat(a[1..], b);
      assert (a + b)[1..] == a[1..] + b;
    }
  }

  lemma {:induction false} NoSlashes(s: string)
    ensures Slashes(s) == 0 <==> SlashFree(s)
  {
    if s != "" {
      NoSlashes(s[1..]);
      assert SlashFree(s) <==> s[0] != '/' && SlashFree(s[1..]);
    }
  }

  /** Text before the first slash determines how a string splits. */
  lemma SplitAtFirstSlash(a: string, x: string, b: string, y: string)
    requires SlashFree(a) && SlashFree(b)
    requires a + "/" + x == b + "/" + y
    ensures a == b && x == y
  {
    var s := a + "/" + x;
    assert s[|a|] == '/' && s[|b|] == '/';
    assert forall i | 0 <= i < |a| :: s[i] == a[i] && s[i] != '/';
    assert forall i | 0 <= i < |b| :: s[i] == b[i] && s[i] != '/';
    assert |a| == |b|;
    assert a == s[..|a|] && b == s[..|b|];
    assert x == s[|a| + 1..] && y == s[|b| + 1..];
  }

  lemma SlashesOfKey(ref: ResourceRef)
    ensures Slashes(IndexKey(ref)) == 2 + Slashes(ref.kind) + Slashes(ref.namespace) + Slashes(ref.name)
  {
    SlashesOfConcat(ref.kind + "/" + ref.namespace + "/", ref.name);
    SlashesOfConcat(ref.kind + "/" + ref.namespace, "/");
    SlashesOfConcat(ref.kind + "/", ref.namespace);
    SlashesOfConcat(ref.kind, "/");
    assert Slashes("/") == 1;
  }

  /**
   A key looked up for a real cluster object (its three parts are slash-free, as
   Kubernetes names are) is the key of one reference only, whatever text users put
   into theirs.
   */
  lemma LookupKeyIsInjective(stored: ResourceRef, looked: ResourceRef)
    requires SlashFree(looked.kind) && SlashFree(looked.namespace) && SlashFree(looked.name)
    ensures IndexKey(stored) == IndexKey(looked) <==> stored == looked
  {
    if IndexKey(stored) == IndexKey(looked) {
      StoredPartsAreSlashFree(stored, looked);
      IndexKeySplits(stored);
      IndexKeySplits(looked);
      SplitAtFirstSlash(stored.kind, stored.namespace + "/" + stored.name, looked.kind, looked.namespace + "/" + looked.name);
      SplitAtFirstSlash(stored.namespace, stored.name, looked.namespace, looked.name);
    }
  }

  lemma IndexKeySplits(ref: ResourceRef)
    ensures IndexKey(ref) == ref.kind + "/" + (ref.namespace + "/" + ref.name)
  {
  }

  lemma StoredPartsAreSlashFree(stored: ResourceRef, looked: ResourceRef)
    requires SlashFree(looked.kind) && SlashFree(looked.namespace) && SlashFree(looked.name)
    requires IndexKey(stored) == IndexKey(looked)
    ensures SlashFree(stored.kind) && SlashFree(stored.namespace)
  {
    SlashesOfKey(stored);
    SlashesOfKey(looked);
    NoSlashes(looked.kind);
    NoSlashes(looked.namespace);
    NoSlashes(looked.name);
    NoSlashes(stored.kind);
    NoSlashes(stored.namespace);
  }

  predicate RefersTo(pool: Pool, target: ResourceRef) {
    exists i | 0 <= i < |pool.spec.originServers| ::
      && pool.spec.originServers[i].discover.Some?
      && Target(pool.spec.originServers[i].discover.value.resource, pool.id.namespace) == target
  }

  /** k is one of the keys the pool is indexed under. */
  ghost predicate Keyed(pool: Pool, k: string) {
    exists target :: RefersTo(pool, target) && IndexKey(target) == k
  }

  /** The key an entry is indexed under, from its own text and the pool's namespace. */
  predicate IsKeyOf(k: string, d: Discover, poolNamespace: string) {
    k == d.resource.kind + "/" + (if d.resource.namespace == "" then poolNamespace else d.resource.namespace) + "/" + d.resource.name
  }

  lemma KeyedByItsFields(pool: Pool, k: string)
    ensures Keyed(pool, k) <==>
              exists i | 0 <= i < |pool.spec.originServers| && pool.spec.originServers[i].discover.Some? ::
                IsKeyOf(k, pool.spec.originServers[i].discover.value, pool.id.namespace)
  {
    var servers := pool.spec.originServers;
    if i :| 0 <= i < |servers| && servers[i].discover.Some? && IsKeyOf(k, servers[i].discover.value, pool.id.namespace) {
      assert RefersTo(pool, Target(servers[i].discover.value.resource, pool.id.namespace));
    }
    if Keyed(pool, k) {
      var target :| RefersTo(pool, target) && IndexKey(target) == k;
      var i :| 0 <= i < |servers| && servers[i].discover.Some? && Target(servers[i].discover.value.resource, pool.id.namespace) == target;
      assert IsKeyOf(k, servers[i].discover.value, pool.id.namespace);
    }
  }

  /** A pool refers to an object if an entry names its kind and name, and its namespace or, by naming none, the pool's. */
  lemma RefersByItsFields(pool: Pool, kind: string, namespace: string, name: string)
    ensures RefersTo(pool, ResourceRef(kind, name, namespace)) <==>
              exists i | 0 <= i < |pool.spec.originServers| && pool.spec.originServers[i].discover.Some? ::
                var r := pool.spec.originServers[i].discover.value.resource;
                r.kind == kind && r.name == name && (r.namespace == namespace != "" || (r.namespace == "" && pool.id.namespace == namespace))
  {
    var servers := pool.spec.originServers;
    forall i | 0 <= i < |servers| && servers[i].discover.Some?
      ensures var r := servers[i].discover.value.resource;
              Target(r, pool.id.namespace) == ResourceRef(kind, name, namespace)
              <==> r.kind == kind && r.name == name && (r.namespace == namespace != "" || (r.namespace == "" && pool.id.namespace == namespace))
    {
    }
  }

  method DiscoverIndexFunc(pool: Pool) returns (keys: seq<string>)
    ensures forall k :: k in keys <==> Keyed(pool, k)
    ensures forall k :: k in keys <==>
              exists i | 0 <= i < |pool.spec.originServers| && pool.spec.originServers[i].discover.Some? ::
                IsKeyOf(k, pool.spec.originServers[i].discover.value, pool.id.namespace)
  {
    keys := [];
    var servers := pool.spec.originServers;
    for i := 0 to |servers|
      invariant forall k | k in keys :: Keyed(pool, k)
      invariant forall j | 0 <= j < i && servers[j].discover.Some? ::
                  IndexKey(Target(servers[j].discover.value.resource, pool.id.namespace)) in keys
    {
      if servers[i].discover.Some? {
        var target := Target(servers[i].discover.value.resource, pool.id.namespace);
        assert RefersTo(pool, target);
        keys := keys + [IndexKey(target)];
      }
    }
    forall target | RefersTo(pool, target)
      ensures IndexKey(target) in keys
    {
    }
    forall k
      ensures Keyed(pool, k) <==>
                exists i | 0 <= i < |servers| && servers[i].discover.Some? :: IsKeyOf(k, servers[i].discover.value, pool.id.namespace)
    {
      KeyedByItsFields(pool, k);
    }
  }

  predicate UsesService(pool: Pool) {
    exists i | 0 <= i < |pool.spec.originServers| ::
      pool.spec.originServers[i].discover.Some? && pool.spec.originServers[i].discover.value.resource.kind == SERVICE
  }

  predicate HasEntryOfKind(pool: Pool, kind: string) {
    exists i | 0 <= i < |pool.spec.originServers| :: HasKind(pool.spec.originServers[i], kind)
  }

  predicate HasKind(s: OriginServer, kind: string) {
    s.discover.Some? && s.discover.value.resource.kind == kind
  }

  lemma UsesServiceByKind(pool: Pool)
    ensures UsesService(pool) <==> HasEntryOfKind(pool, "Service")
  {
    if i :| 0 <= i < |pool.spec.originServers| && pool.spec.originServers[i].discover.Some? && pool.spec.originServers[i].discover.value.resource.kind == SERVICE {
      assert HasKind(pool.spec.originServers[i], "Service");
    }
  }

  predicate NamesServicePool(pools: seq<Pool>, n: Name) {
    exists i | 0 <= i < |pools| :: pools[i].id == n && UsesService(pools[i])
  }

  lemma OneMoreServicePool(pools: seq<Pool>, i: nat, n: Name)
    requires i < |pools|
    ensures NamesServicePool(pools[..i + 1], n) <==> NamesServicePool(pools[..i], n) || (pools[i].id == n && UsesService(pools[i]))
  {
    if NamesServicePool(pools[..i], n) {
      var k :| 0 <= k < i && pools[..i][k].id == n && UsesService(pools[..i][k]);
      assert pools[..i + 1][k] == pools[k];
    }
    assert pools[..i + 1][i] == pools[i];
  }

  /** `listed` is the cache's answer; when listing fails nothing is enqueued. */
  method MapNodeToOriginPools(listed: Option<seq<Pool>>) returns (requests: seq<Name>)
    ensures listed.None? ==> requests == []
    ensures listed.Some? ==>
              forall n :: n in requests <==> NamesServicePool(listed.value, n)
    ensures listed.Some? ==>
              forall i | 0 <= i < |listed.value| :: HasEntryOfKind(listed.value[i], "Service") ==> listed.value[i].id in requests
    ensures listed.Some? ==>
              forall n | n in requests :: exists i | 0 <= i < |listed.value| :: listed.value[i].id == n && HasEntryOfKind(listed.value[i], "Service")
    ensures forall j, k | 0 <= j < k < |requests| :: requests[j] != requests[k]
  {
    if listed.None? {
      return [];
    }
    var pools := listed.value;
    requests := [];
    var seen: set<Name> := {};
    for i := 0 to |pools|
      invariant forall n :: n in requests <==> n in seen
      invariant forall n :: n in seen <==> NamesServicePool(pools[..i], n)
      invariant forall j, k | 0 <= j < k < |requests| :: requests[j] != requests[k]
    {
      var servers := pools[i].spec.originServers;
      ghost var before := seen;
      for j := 0 to |servers|
        invariant forall n :: n in requests <==> n in seen
        invariant seen == before || seen == before + {pools[i].id}
        invariant pools[i].id in seen <==>
                  || pools[i].id in before
                  || exists k | 0 <= k < j :: servers[k].discover.Some? && servers[k].discover.value.resource.kind == SERVICE
        invariant forall j, k | 0 <= j < k < |requests| :: requests[j] != requests[k]
      {
        if servers[j].discover.Some? && servers[j].discover.value.resource.kind == SERVICE {
          var key := pools[i].id;
          if key !in seen {
            requests := requests + [key];
            seen := seen + {key};
          }
        }
      }
      forall n
        ensures n in seen <==> NamesServicePool(pools[..i + 1], n)
      {
        OneMoreServicePool(pools, i, n);
      }
    }
    assert pools[..|pools|] == pools;
    forall i | 0 <= i < |pools|
      ensures UsesService(pools[i]) <==> HasEntryOfKind(pools[i], "Service")
    {
      UsesServiceByKind(pools[i]);
    }
  }

  // ----- Watch soundness -----

  /** The two snapshots agree on everything but possibly the one object `changed`. */
  predicate DifferOnlyAt(a: Cluster, b: Cluster, changed: ResourceRef) {
    var key := Name(changed.namespace, changed.name);
    && a.nodes == b.nodes
    && (if changed.kind == SERVICE then a.services - {key} == b.services - {key} else a.services == b.services)
    && (if changed.kind == INGRESS then a.ingresses - {key} == b.ingresses - {key} else a.ingresses == b.ingresses)
    && (if changed.kind == GATEWAY then a.gateways - {key} == b.gateways - {key} else a.gateways == b.gateways)
    && (if changed.kind == ROUTE then a.routes - {key} == b.routes - {key} else a.routes == b.routes)
  }

  predicate DifferOnlyInNodes(a: Cluster, b: Cluster) {
    a.(nodes := None) == b.(nodes := None)
  }

  lemma KindsDiffer()
    ensures SERVICE != INGRESS && SERVICE != GATEWAY && SERVICE != ROUTE
    ensures INGRESS != GATEWAY && INGRESS != ROUTE && GATEWAY != ROUTE
  {
    assert |SERVICE| == |INGRESS| == |GATEWAY| == 7 && |ROUTE| == 5;
    assert SERVICE[0] == 'S' && INGRESS[0] == 'I' && GATEWAY[0] == 'G';
  }

  /** Removing one key from both sides hides a difference at that key only. */
  lemma AgreeElsewhere<V>(a: map<Name, V>, b: map<Name, V>, key: Name, other: Name)
    requires a - {key} == b - {key} && other != key
    ensures other in a <==> other in b
    ensures other in a ==> a[other] == b[other]
  {
    assert other in a <==> other in a - {key};
    assert other in b <==> other in b - {key};
    if other in a {
      assert (a - {key})[other] == (b - {key})[other];
    }
  }

  lemma OtherTargetsUnaffected(isIP: string -> bool, a: Cluster, b: Cluster, changed: ResourceRef, target: ResourceRef)
    requires DifferOnlyAt(a, b, changed)
    requires target != changed
    ensures ResolveResource(isIP, a, target) == ResolveResource(isIP, b, target)
  {
    KindsDiffer();
    var key, other := Name(changed.namespace, changed.name), Name(target.namespace, target.name);
    if target.kind == changed.kind {
      assert other != key;
      if target.kind == SERVICE {
        AgreeElsewhere(a.services, b.services, key, other);
      } else if target.kind == INGRESS {
        AgreeElsewhere(a.ingresses, b.ingresses, key, other);
      } else if target.kind == GATEWAY {
        AgreeElsewhere(a.gateways, b.gateways, key, other);
      } else if target.kind == ROUTE {
        AgreeElsewhere(a.routes, b.routes, key, other);
      }
    }
  }

  /** Pools resolve the same from two clusters on which every one of their targets resolves the same. */
  lemma {:induction false} EntriesAgree(isIP: string -> bool, a: Cluster, b: Cluster, ns: string, servers: seq<OriginServer>)
    requires forall i | 0 <= i < |servers| && servers[i].discover.Some? ::
               FinalOrigin(isIP, a, ns, servers[i].discover.value) == FinalOrigin(isIP, b, ns, servers[i].discover.value)
    ensures StatusEntries(isIP, a, ns, servers) == StatusEntries(isIP, b, ns, servers)
  {
    if servers != [] {
      EntriesAgree(isIP, a, b, ns, servers[..|servers| - 1]);
    }
  }

  lemma PoolsAgree(isIP: string -> bool, a: Cluster, b: Cluster, pool: Pool)
    requires forall i | 0 <= i < |pool.spec.originServers| && pool.spec.originServers[i].discover.Some? ::
               FinalOrigin(isIP, a, pool.id.namespace, pool.spec.originServers[i].discover.value)
               == FinalOrigin(isIP, b, pool.id.namespace, pool.spec.originServers[i].discover.value)
    ensures ResolveAll(isIP, a, pool) == ResolveAll(isIP, b, pool)
  {
    var servers, ns := pool.spec.originServers, pool.id.namespace;
    EntriesAgree(isIP, a, b, ns, servers);
    forall i | 0 <= i < |servers|
      ensures OriginOf(isIP, a, ns, servers[i]) == OriginOf(isIP, b, ns, servers[i])
    {
    }
    assert ResolveAll(isIP, a, pool).origins == ResolveAll(isIP, b, pool).origins;
  }

  /**
   Watch soundness for one changed object: a pool whose resolution the change can
   alter refers to that object, so the object's mapper enqueues it.
   */
  lemma ObjectWatchIsSound(isIP: string -> bool, a: Cluster, b: Cluster, changed: ResourceRef, pool: Pool)
    requires DifferOnlyAt(a, b, changed)
    requires ResolveAll(isIP, a, pool) != ResolveAll(isIP, b, pool)
    ensures RefersTo(pool, changed)
  {
    if !RefersTo(pool, changed) {
      var servers, ns := pool.spec.originServers, pool.id.namespace;
      forall i | 0 <= i < |servers| && servers[i].discover.Some?
        ensures FinalOrigin(isIP, a, ns, servers[i].discover.value) == FinalOrigin(isIP, b, ns, servers[i].discover.value)
      {
        OtherTargetsUnaffected(isIP, a, b, changed, Target(servers[i].discover.value.resource, ns));
      }
      PoolsAgree(isIP, a, b, pool);
    }
  }

  /** Watch soundness for nodes: only pools with a Service entry can be affected, and the node mapper enqueues those. */
  lemma NodeWatchIsSound(isIP: string -> bool, a: Cluster, b: Cluster, pool: Pool)
    requires DifferOnlyInNodes(a, b)
    requires ResolveAll(isIP, a, pool) != ResolveAll(isIP, b, pool)
    ensures UsesService(pool)
  {
    if !UsesService(pool) {
      var servers, ns := pool.spec.originServers, pool.id.namespace;
      forall i | 0 <= i < |servers| && servers[i].discover.Some?
        ensures FinalOrigin(isIP, a, ns, servers[i].discover.value) == FinalOrigin(isIP, b, ns, servers[i].discover.value)
      {
      }
      PoolsAgree(isIP, a, b, pool);
    }
  }
}
