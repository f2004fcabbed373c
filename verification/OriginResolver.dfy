/**
 internal/controller/origin_resolver.go: from one cluster resource to an address.
 `isIP` stands for `net.ParseIP(addr) != nil`. Messages are not modelled.
 */
module OriginResolver {
  import opened Wrappers
  import opened OriginPoolTypes

  datatype ServiceType = ClusterIP | NodePort | LoadBalancer | ExternalName

  datatype LbIngress = LbIngress(ip: string, hostname: string)

  datatype ServicePort = ServicePort(port: nat, nodePort: nat)

  datatype Service = Service(
    serviceType: ServiceType,
    externalName: string,
    externalIPs: seq<string>,
    lbIngress: seq<LbIngress>,
    ports: seq<ServicePort>)

  datatype Condition = Condition(kind: string, status: string)

  datatype NodeAddress = NodeAddress(kind: string, address: string)

  datatype Node = Node(conditions: seq<Condition>, addresses: seq<NodeAddress>)

  datatype Ingress = Ingress(lbIngress: seq<LbIngress>, tls: seq<string>)

  datatype GatewayAddress = GatewayAddress(isHostname: bool, value: string)

  datatype Gateway = Gateway(addresses: seq<GatewayAddress>, listenerPorts: seq<nat>)

  datatype RouteIngress = RouteIngress(host: string, conditions: seq<Condition>)

  datatype Route = Route(ingress: seq<RouteIngress>, hasTLS: bool)

  const READY := "Ready"
  const ADMITTED := "Admitted"
  const TRUE := "True"
  const EXTERNAL_IP := "ExternalIP"

  const PENDING := ResolvedOrigin("", 0, Unset, true)

  function ClassifyAddress(isIP: string -> bool, addr: string): AddressType {
    if isIP(addr) then IP else FQDN
  }

  function FirstPort(svc: Service): nat {
    if |svc.ports| > 0 then svc.ports[0].port else 0
  }

  /** Address of the first load-balancer entry: its IP, else its hostname, else pending. */
  function FromLoadBalancer(isIP: string -> bool, entries: seq<LbIngress>, port: nat): ResolvedOrigin {
    if entries == [] then PENDING
    else
      var addr := if entries[0].ip != "" then entries[0].ip else entries[0].hostname;
      if addr == "" then PENDING else ResolvedOrigin(addr, port, ClassifyAddress(isIP, addr), false)
  }

  // ----- Node ports -----

  predicate IsReady(node: Node) {
    exists i | 0 <= i < |node.conditions| :: node.conditions[i] == Condition(READY, TRUE)
  }

  method IsNodeReady(node: Node) returns (ready: bool)
    ensures ready == IsReady(node)
  {
    for i := 0 to |node.conditions|
      invariant forall k | 0 <= k < i :: node.conditions[k] != Condition(READY, TRUE)
    {
      if node.conditions[i].kind == READY && node.conditions[i].status == TRUE {
        return true;
      }
    }
    return false;
  }

  /** Address j of node i is one `resolveNodePort` may return. */
  predicate Usable(nodes: seq<Node>, i: nat, j: nat)
    requires i < |nodes| && j < |nodes[i].addresses|
  {
    IsReady(nodes[i]) && nodes[i].addresses[j].kind == EXTERNAL_IP
  }

  function FirstExternal(addresses: seq<NodeAddress>): Option<string> {
    if addresses == [] then None
    else if addresses[0].kind == EXTERNAL_IP then Some(addresses[0].address)
    else FirstExternal(addresses[1..])
  }

  function FirstReadyExternal(nodes: seq<Node>): Option<string> {
    if nodes == [] then None
    else if IsReady(nodes[0]) && FirstExternal(nodes[0].addresses).Some? then FirstExternal(nodes[0].addresses)
    else FirstReadyExternal(nodes[1..])
  }

  function NodePortOrigin(svc: Service, nodes: seq<Node>): ResolvedOrigin {
    match FirstReadyExternal(nodes)
    case None => PENDING
    case Some(addr) => ResolvedOrigin(addr, if |svc.ports| > 0 then svc.ports[0].nodePort else 0, IP, false)
  }

  method ResolveNodePort(svc: Service, nodes: seq<Node>) returns (r: ResolvedOrigin)
    ensures r == NodePortOrigin(svc, nodes)
  {
    var i := 0;
    while i < |nodes|
      invariant 0 <= i <= |nodes|
      invariant FirstReadyExternal(nodes) == FirstReadyExternal(nodes[i..])
    {
      var ready := IsNodeReady(nodes[i]);
      if ready {
        var addresses := nodes[i].addresses;
        var j := 0;
        while j < |addresses|
          invariant 0 <= j <= |addresses|
          invariant FirstExternal(addresses) == FirstExternal(addresses[j..])
        {
          if addresses[j].kind == EXTERNAL_IP {
            var port := 0;
            if |svc.ports| > 0 {
              port := svc.ports[0].nodePort;
            }
            return ResolvedOrigin(addresses[j].address, port, IP, false);
          }
          j := j + 1;
        }
      }
      i := i + 1;
    }
    return PENDING;
  }

  lemma {:induction false} FirstExternalIsFirst(addresses: seq<NodeAddress>)
    ensures FirstExternal(addresses).None? <==> forall j | 0 <= j < |addresses| :: addresses[j].kind != EXTERNAL_IP
    ensures FirstExternal(addresses).Some? ==>
              exists j | 0 <= j < |addresses| ::
                && addresses[j] == NodeAddress(EXTERNAL_IP, FirstExternal(addresses).value)
                && forall k | 0 <= k < j :: addresses[k].kind != EXTERNAL_IP
  {
    if addresses != [] && addresses[0].kind != EXTERNAL_IP {
      var rest := addresses[1..];
      FirstExternalIsFirst(rest);
      assert forall j | 0 < j < |addresses| :: addresses[j] == rest[j - 1];
      if FirstExternal(rest).Some? {
        var j :| 0 <= j < |rest| && rest[j] == NodeAddress(EXTERNAL_IP, FirstExternal(rest).value)
          && forall k | 0 <= k < j :: rest[k].kind != EXTERNAL_IP;
        assert addresses[j + 1] == rest[j];
        assert forall k | 0 < k < j + 1 :: addresses[k] == rest[k - 1];
      }
    } else if addresses != [] {
      assert addresses[0] == NodeAddress(EXTERNAL_IP, FirstExternal(addresses).value);
    }
  }

  /** Nothing before address j of node i, in reading order, is usable. */
  predicate NothingUsableBefore(nodes: seq<Node>, i: nat, j: nat)
    requires i < |nodes| && j < |nodes[i].addresses|
  {
    forall m, n | 0 <= m < |nodes| && 0 <= n < |nodes[m].addresses| && (m < i || (m == i && n < j)) :: !Usable(nodes, m, n)
  }

  ghost predicate IsFirstUsable(nodes: seq<Node>, addr: string) {
    exists i: nat, j: nat | i < |nodes| && j < |nodes[i].addresses| ::
      Usable(nodes, i, j) && nodes[i].addresses[j].address == addr && NothingUsableBefore(nodes, i, j)
  }

  /**
   A node-port service resolves to the first usable address in (node, address)
   order, and stays pending exactly when no node offers one.
   */
  lemma {:induction false} NodePortTakesTheFirst(svc: Service, nodes: seq<Node>)
    ensures NodePortOrigin(svc, nodes).pending
       <==> forall i: nat, j: nat | i < |nodes| && j < |nodes[i].addresses| :: !Usable(nodes, i, j)
    ensures !NodePortOrigin(svc, nodes).pending ==>
              && IsFirstUsable(nodes, NodePortOrigin(svc, nodes).address)
              && NodePortOrigin(svc, nodes).port == (if svc.ports == [] then 0 else svc.ports[0].nodePort)
              && NodePortOrigin(svc, nodes).addressType == IP
  {
    if nodes != [] {
      var rest := nodes[1..];
      NodePortTakesTheFirst(svc, rest);
      FirstExternalIsFirst(nodes[0].addresses);
      assert forall m | 0 < m < |nodes| :: nodes[m] == rest[m - 1];
      if IsReady(nodes[0]) && FirstExternal(nodes[0].addresses).Some? {
        var addresses := nodes[0].addresses;
        var j :| 0 <= j < |addresses| && addresses[j] == NodeAddress(EXTERNAL_IP, FirstExternal(addresses).value)
          && forall k | 0 <= k < j :: addresses[k].kind != EXTERNAL_IP;
        assert Usable(nodes, 0, j) && NothingUsableBefore(nodes, 0, j);
      } else {
        assert forall j | 0 <= j < |nodes[0].addresses| :: !Usable(nodes, 0, j);
        forall m: nat, n: nat | m < |rest| && n < |rest[m].addresses|
          ensures Usable(rest, m, n) == Usable(nodes, m + 1, n)
        {
        }
        forall m: nat, n: nat | 0 < m < |nodes| && n < |nodes[m].addresses|
          ensures Usable(rest, m - 1, n) == Usable(nodes, m, n)
        {
        }
        if FirstReadyExternal(rest).Some? {
          FirstUsableShifts(nodes);
        }
      }
    }
  }

  lemma FirstUsableShifts(nodes: seq<Node>)
    requires nodes != [] && FirstReadyExternal(nodes[1..]).Some?
    requires IsFirstUsable(nodes[1..], FirstReadyExternal(nodes[1..]).value)
    requires forall j | 0 <= j < |nodes[0].addresses| :: !Usable(nodes, 0, j)
    ensures IsFirstUsable(nodes, FirstReadyExternal(nodes[1..]).value)
  {
    var rest := nodes[1..];
    var i: nat, j: nat :| i < |rest| && j < |rest[i].addresses| && Usable(rest, i, j)
      && rest[i].addresses[j].address == FirstReadyExternal(rest).value && NothingUsableBefore(rest, i, j);
    assert Usable(nodes, i + 1, j);
    forall m, n | 0 <= m < |nodes| && 0 <= n < |nodes[m].addresses| && (m < i + 1 || (m == i + 1 && n < j))
      ensures !Usable(nodes, m, n)
    {
      if m > 0 {
        assert nodes[m] == rest[m - 1];
        assert !Usable(rest, m - 1, n);
      }
    }
    assert NothingUsableBefore(nodes, i + 1, j);
  }

  /** A resolved node port survives appended nodes, and nodes that are not ready may come and go anywhere. */
  lemma {:induction false} NodePortIsStable(svc: Service, before: seq<Node>, extra: seq<Node>, after: seq<Node>)
    ensures !NodePortOrigin(svc, before).pending ==> NodePortOrigin(svc, before + extra) == NodePortOrigin(svc, before)
    ensures (forall i | 0 <= i < |extra| :: !IsReady(extra[i])) ==>
              NodePortOrigin(svc, before + extra + after) == NodePortOrigin(svc, before + after)
    decreases |before| + |extra|
  {
    if before != [] {
      NodePortIsStable(svc, before[1..], extra, after);
      assert (before + extra)[1..] == before[1..] + extra;
      assert (before + extra + after)[1..] == before[1..] + extra + after;
      assert (before + after)[1..] == before[1..] + after;
    } else if extra != [] {
      NodePortIsStable(svc, before, extra[1..], after);
      assert before + extra + after == extra + after;
      assert (extra + after)[1..] == before + extra[1..] + after;
    } else {
      assert before + extra + after == before + after;
    }
  }

  // ----- The resolvers -----

  function ResolveService(isIP: string -> bool, svc: Service, nodes: seq<Node>): ResolvedOrigin {
    if svc.serviceType.ExternalName? then ResolvedOrigin(svc.externalName, FirstPort(svc), FQDN, false)
    else if |svc.externalIPs| > 0 then
      ResolvedOrigin(svc.externalIPs[0], FirstPort(svc), ClassifyAddress(isIP, svc.externalIPs[0]), false)
    else if svc.serviceType.LoadBalancer? then FromLoadBalancer(isIP, svc.lbIngress, FirstPort(svc))
    else if svc.serviceType.NodePort? then NodePortOrigin(svc, nodes)
    else PENDING
  }

  function ResolveIngress(isIP: string -> bool, ing: Ingress): ResolvedOrigin {
    FromLoadBalancer(isIP, ing.lbIngress, if |ing.tls| > 0 then 443 else 80)
  }

  function ResolveGateway(isIP: string -> bool, gw: Gateway): ResolvedOrigin {
    if gw.addresses == [] || gw.addresses[0].value == "" then PENDING
    else
      var addr := gw.addresses[0];
      ResolvedOrigin(
        addr.value,
        if |gw.listenerPorts| > 0 then gw.listenerPorts[0] else 0,
        if addr.isHostname then FQDN else ClassifyAddress(isIP, addr.value),
        false)
  }

  predicate IsAdmitted(ri: RouteIngress) {
    exists i | 0 <= i < |ri.conditions| :: ri.conditions[i] == Condition(ADMITTED, TRUE)
  }

  /** The first admitted ingress decides, even when its host is empty. */
  function FirstAdmitted(ingress: seq<RouteIngress>): Option<RouteIngress> {
    if ingress == [] then None
    else if IsAdmitted(ingress[0]) then Some(ingress[0])
    else FirstAdmitted(ingress[1..])
  }

  function RouteOrigin(route: Route): ResolvedOrigin {
    match FirstAdmitted(route.ingress)
    case None => PENDING
    case Some(ri) =>
      if ri.host == "" then PENDING
      else ResolvedOrigin(ri.host, if route.hasTLS then 443 else 80, FQDN, false)
  }

  method ResolveRoute(route: Route) returns (r: ResolvedOrigin)
    ensures r == RouteOrigin(route)
  {
    if |route.ingress| == 0 {
      return PENDING;
    }
    var i := 0;
    while i < |route.ingress|
      invariant 0 <= i <= |route.ingress|
      invariant FirstAdmitted(route.ingress) == FirstAdmitted(route.ingress[i..])
    {
      var ri := route.ingress[i];
      for j := 0 to |ri.conditions|
        invariant forall k | 0 <= k < j :: ri.conditions[k] != Condition(ADMITTED, TRUE)
      {
        if ri.conditions[j].kind == ADMITTED && ri.conditions[j].status == TRUE {
          assert ri.conditions[j] == Condition(ADMITTED, TRUE);
          if ri.host == "" {
            return PENDING;
          }
          var port := 80;
          if route.hasTLS {
            port := 443;
          }
          return ResolvedOrigin(ri.host, port, FQDN, false);
        }
      }
      i := i + 1;
    }
    return PENDING;
  }

  /**
   A route resolves exactly when some ingress is admitted and the first admitted
   one has a host; a later admitted ingress never rescues an empty host.
   */
  lemma {:induction false} RouteIsDecidedByTheFirstAdmitted(route: Route, k: nat)
    requires k < |route.ingress| && IsAdmitted(route.ingress[k])
    requires forall i | 0 <= i < k :: !IsAdmitted(route.ingress[i])
    ensures RouteOrigin(route).pending <==> route.ingress[k].host == ""
    ensures !RouteOrigin(route).pending ==>
              RouteOrigin(route) == ResolvedOrigin(route.ingress[k].host, if route.hasTLS then 443 else 80, FQDN, false)
    decreases k
  {
    if k > 0 {
      var rest := Route(route.ingress[1..], route.hasTLS);
      RouteIsDecidedByTheFirstAdmitted(rest, k - 1);
    }
  }

  /** An override replaces what it names, the address together with its type, and nothing else. */
  predicate IsOverridden(isIP: string -> bool, d: Discover, raw: ResolvedOrigin, final: ResolvedOrigin) {
    && final.pending == raw.pending
    && final.port == (if d.portOverride.Some? then d.portOverride.value else raw.port)
    && if d.addressOverride == "" then final.address == raw.address && final.addressType == raw.addressType
       else final.address == d.addressOverride && final.addressType == (if isIP(d.addressOverride) then IP else FQDN)
  }

  /** Overrides replace address and port of the copy; they never turn a pending origin into a resolved one. */
  function ResolveDiscover(isIP: string -> bool, d: Discover, r: ResolvedOrigin): (final: ResolvedOrigin)
    ensures IsOverridden(isIP, d, r, final)
  {
    var addressed :=
      if d.addressOverride != ""
      then r.(address := d.addressOverride, addressType := ClassifyAddress(isIP, d.addressOverride))
      else r;
    if d.portOverride.Some? then addressed.(port := d.portOverride.value) else addressed
  }

  // ----- Answers, field by field -----

  /** What a load balancer's status resolves to: its first entry's IP, else that entry's hostname, else pending. */
  predicate IsFirstEntry(isIP: string -> bool, entries: seq<LbIngress>, port: nat, r: ResolvedOrigin) {
    if entries == [] || (entries[0].ip == "" && entries[0].hostname == "") then r.pending
    else
      && !r.pending && r.port == port
      && r.address == (if entries[0].ip != "" then entries[0].ip else entries[0].hostname)
      && r.addressType == (if isIP(r.address) then IP else FQDN)
  }

  /** Kinds in order of precedence: external name, external IPs, load balancer, node port; a plain service never resolves. */
  lemma ServiceByItsFields(isIP: string -> bool, svc: Service, nodes: seq<Node>)
    ensures var r, port := ResolveService(isIP, svc, nodes), if svc.ports == [] then 0 else svc.ports[0].port;
            if svc.serviceType.ExternalName? then r == ResolvedOrigin(svc.externalName, port, FQDN, false)
            else if svc.externalIPs != [] then
              r == ResolvedOrigin(svc.externalIPs[0], port, if isIP(svc.externalIPs[0]) then IP else FQDN, false)
            else match svc.serviceType
              case LoadBalancer => IsFirstEntry(isIP, svc.lbIngress, port, r)
              case NodePort =>
                if r.pending
                then forall i, j | 0 <= i < |nodes| && 0 <= j < |nodes[i].addresses| ::
                       !(IsReady(nodes[i]) && nodes[i].addresses[j].kind == "ExternalIP")
                else && IsFirstUsable(nodes, r.address) && r.addressType == IP
                     && r.port == (if svc.ports == [] then 0 else svc.ports[0].nodePort)
              case _ => r.pending
  {
    NodePortTakesTheFirst(svc, nodes);
    if svc.serviceType.NodePort? && NodePortOrigin(svc, nodes).pending {
      forall i, j | 0 <= i < |nodes| && 0 <= j < |nodes[i].addresses|
        ensures !(IsReady(nodes[i]) && nodes[i].addresses[j].kind == "ExternalIP")
      {
        assert !Usable(nodes, i, j);
      }
    }
  }

  /** What makes a node usable and a route admitted, by the names the cluster uses. */
  lemma ConditionNames(node: Node, ri: RouteIngress, nodes: seq<Node>, i: nat, j: nat)
    requires i < |nodes| && j < |nodes[i].addresses|
    ensures IsReady(node) <==> exists k | 0 <= k < |node.conditions| :: node.conditions[k].kind == "Ready" && node.conditions[k].status == "True"
    ensures IsAdmitted(ri) <==> exists k | 0 <= k < |ri.conditions| :: ri.conditions[k].kind == "Admitted" && ri.conditions[k].status == "True"
    ensures Usable(nodes, i, j) <==> IsReady(nodes[i]) && nodes[i].addresses[j].kind == "ExternalIP"
  {
    if k :| 0 <= k < |node.conditions| && node.conditions[k].kind == "Ready" && node.conditions[k].status == "True" {
      assert node.conditions[k] == Condition("Ready", "True");
    }
    if k :| 0 <= k < |ri.conditions| && ri.conditions[k].kind == "Admitted" && ri.conditions[k].status == "True" {
      assert ri.conditions[k] == Condition("Admitted", "True");
    }
  }

  lemma IngressAndGatewayByTheirFields(isIP: string -> bool, ing: Ingress, gw: Gateway)
    ensures IsFirstEntry(isIP, ing.lbIngress, if ing.tls == [] then 80 else 443, ResolveIngress(isIP, ing))
    ensures var r := ResolveGateway(isIP, gw);
            if gw.addresses == [] || gw.addresses[0].value == "" then r.pending
            else && !r.pending && r.address == gw.addresses[0].value
                 && r.port == (if gw.listenerPorts == [] then 0 else gw.listenerPorts[0])
                 && (r.addressType == IP <==> !gw.addresses[0].isHostname && isIP(r.address))
                 && (r.addressType == FQDN <==> gw.addresses[0].isHostname || !isIP(r.address))
  {
  }

  /** A route no ingress of which is admitted stays pending. */
  lemma {:induction false} UnadmittedRouteIsPending(route: Route)
    requires forall i | 0 <= i < |route.ingress| :: !IsAdmitted(route.ingress[i])
    ensures RouteOrigin(route).pending
    decreases |route.ingress|
  {
    if route.ingress != [] {
      UnadmittedRouteIsPending(Route(route.ingress[1..], route.hasTLS));
    }
  }
}
