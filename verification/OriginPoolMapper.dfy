/**
 internal/controller/originpool_mapper.go and the JSON encoding of its result
 (struct tags of internal/xcclient/originpool.go): from a pool and its resolved
 origins to the document sent to the XC API.
 */
module OriginPoolMapper {
  import opened Wrappers
  import opened Json
  import opened OriginPoolTypes
  import opened PoolDecoding
  import Diff

  // ----- Custom resource to wire types -----

  /** `mapSiteLocator` and `mapNetworkChoice`: the inside network wins when both are set. */
  function MapPlacement(p: Placement): WirePlacement {
    WirePlacement(
      if p.site.None? && p.virtualSite.None? then None else Some(SiteLocator(p.site, p.virtualSite)),
      p.inside,
      !p.inside && p.outside)
  }

  function MapPrivate(p: Option<Private>): Option<WirePrivate> {
    if p.None? then None else Some(WirePrivate(p.value.target, MapPlacement(p.value.placement)))
  }

  function MapK8sService(k: Option<K8sService>): Option<WireK8sService> {
    if k.None? then None else Some(WireK8sService(k.value.name, k.value.namespace, MapPlacement(k.value.placement)))
  }

  function MapOriginServer(s: OriginServer): WireOrigin {
    WireOrigin(
      s.publicIP, s.publicName,
      MapPrivate(s.privateIP), MapPrivate(s.privateName), MapK8sService(s.k8sService), MapPrivate(s.consulService))
  }

  /** The resolved port is published in the status only: it never reaches the payload. */
  function MapResolvedOriginServer(r: ResolvedOrigin): WireOrigin {
    if r.addressType == IP
    then WireOrigin(Some(r.address), None, None, None, None, None)
    else WireOrigin(None, Some(r.address), None, None, None, None)
  }

  function MapOrigin(s: OriginServer, resolved: Option<ResolvedOrigin>): WireOrigin {
    if resolved.Some? then MapResolvedOriginServer(resolved.value) else MapOriginServer(s)
  }

  function ResolvedAt(resolved: seq<Option<ResolvedOrigin>>, i: nat): Option<ResolvedOrigin> {
    if i < |resolved| then resolved[i] else None
  }

  function MapSpec(spec: OriginPoolSpec, resolved: seq<Option<ResolvedOrigin>>): WireSpec {
    WireSpec(
      seq(|spec.originServers|, i requires 0 <= i < |spec.originServers| =>
        MapOrigin(spec.originServers[i], ResolvedAt(resolved, i))),
      spec.port, if spec.useTLS.Some? then Some(MapTls(spec.useTLS.value)) else None, spec.noTLS, spec.loadBalancerAlgorithm, spec.healthChecks)
  }

  method MapOriginPoolSpec(spec: OriginPoolSpec, resolved: seq<Option<ResolvedOrigin>>) returns (out: WireSpec)
    ensures out == MapSpec(spec, resolved)
  {
    out := WireSpec([], spec.port, None, false, spec.loadBalancerAlgorithm, []);
    for i := 0 to |spec.originServers|
      invariant out == WireSpec(out.origins, spec.port, None, false, spec.loadBalancerAlgorithm, [])
      invariant |out.origins| == i
      invariant forall k | 0 <= k < i :: out.origins[k] == MapOrigin(spec.originServers[k], ResolvedAt(resolved, k))
    {
      if i < |resolved| && resolved[i].Some? {
        out := out.(origins := out.origins + [MapResolvedOriginServer(resolved[i].value)]);
      } else {
        out := out.(origins := out.origins + [MapOriginServer(spec.originServers[i])]);
      }
    }
    assert out.origins == MapSpec(spec, resolved).origins;
    for i := 0 to |spec.healthChecks|
      invariant out == WireSpec(MapSpec(spec, resolved).origins, spec.port, None, false, spec.loadBalancerAlgorithm, spec.healthChecks[..i])
    {
      out := out.(healthChecks := out.healthChecks + [spec.healthChecks[i]]);
    }
    assert spec.healthChecks[..|spec.healthChecks|] == spec.healthChecks;
    if spec.useTLS.Some? {
      out := out.(useTLS := Some(MapTls(spec.useTLS.value)));
    }
    if spec.noTLS {
      out := out.(noTLS := true);
    }
  }

  function Count(b: bool): nat {
    if b then 1 else 0
  }

  function Choices(s: OriginServer): nat {
    Count(s.publicIP.Some?) + Count(s.publicName.Some?) + Count(s.privateIP.Some?) + Count(s.privateName.Some?)
    + Count(s.k8sService.Some?) + Count(s.consulService.Some?) + Count(s.discover.Some?)
  }

  function WireChoices(w: WireOrigin): nat {
    Count(w.publicIP.Some?) + Count(w.publicName.Some?) + Count(w.privateIP.Some?) + Count(w.privateName.Some?)
    + Count(w.k8sService.Some?) + Count(w.consulService.Some?)
  }

  /** Every discover entry, and nothing else, has a resolved origin. */
  predicate Aligned(spec: OriginPoolSpec, resolved: seq<Option<ResolvedOrigin>>) {
    forall i | 0 <= i < |spec.originServers| ::
      spec.originServers[i].discover.Some? <==> ResolvedAt(resolved, i).Some?
  }

  /**
   A fully resolved pool sends one origin per spec origin, in order, and the
   one-choice-per-origin rule of the custom resource carries over to the payload.
   */
  lemma OneOfCarriesOver(spec: OriginPoolSpec, resolved: seq<Option<ResolvedOrigin>>, i: nat)
    requires Aligned(spec, resolved)
    requires i < |spec.originServers| && Choices(spec.originServers[i]) == 1
    ensures |MapSpec(spec, resolved).origins| == |spec.originServers|
    ensures WireChoices(MapSpec(spec, resolved).origins[i]) == 1
    ensures spec.originServers[i].discover.Some? ==>
              MapSpec(spec, resolved).origins[i] == MapResolvedOriginServer(resolved[i].value)
    ensures spec.originServers[i].discover.None? ==>
              MapSpec(spec, resolved).origins[i] == MapOriginServer(spec.originServers[i])
  {
    assert MapSpec(spec, resolved).origins[i] == MapOrigin(spec.originServers[i], ResolvedAt(resolved, i));
  }

  /** The origins agree on everything but their ports. */
  predicate SameButPorts(a: seq<Option<ResolvedOrigin>>, b: seq<Option<ResolvedOrigin>>) {
    && |a| == |b|
    && forall i | 0 <= i < |a| ::
         && (a[i].Some? <==> b[i].Some?)
         && (a[i].Some? ==> a[i].value.(port := 0) == b[i].value.(port := 0))
  }

  /** Discovered ports, overridden or not, are never sent: the pool's own port is. */
  lemma DiscoveredPortsAreNotSent(spec: OriginPoolSpec, a: seq<Option<ResolvedOrigin>>, b: seq<Option<ResolvedOrigin>>)
    requires SameButPorts(a, b)
    ensures Payload(spec, a) == Payload(spec, b)
    ensures MapSpec(spec, a).port == spec.port
  {
    forall i | 0 <= i < |spec.originServers|
      ensures MapOrigin(spec.originServers[i], ResolvedAt(a, i)) == MapOrigin(spec.originServers[i], ResolvedAt(b, i))
    {
      if i < |a| && a[i].Some? {
        assert a[i].value.(port := 0) == b[i].value.(port := 0);
      }
    }
    assert MapSpec(spec, a).origins == MapSpec(spec, b).origins;
  }

  // ----- Encoding -----

  /** A struct field tagged `omitempty`: left out (not `present`) when it holds the zero value. */
  datatype Tagged = Tagged(name: string, present: bool, value: Json)

  function Fields(es: seq<Tagged>): map<string, Json> {
    if es == [] then map[]
    else
      var last := es[|es| - 1];
      Fields(es[..|es| - 1]) + Field(last.name, last.present, last.value)
  }

  predicate DistinctTags(es: seq<Tagged>) {
    forall i, j | 0 <= i < j < |es| :: es[i].name != es[j].name
  }

  /** An encoded struct has exactly its present fields. */
  lemma {:induction false} FieldsLookup(es: seq<Tagged>)
    requires DistinctTags(es)
    ensures forall i | 0 <= i < |es| :: es[i].name in Fields(es) <==> es[i].present
    ensures forall i | 0 <= i < |es| && es[i].present :: Fields(es)[es[i].name] == es[i].value
    ensures forall k | k in Fields(es) :: exists i | 0 <= i < |es| :: es[i].name == k
  {
    if es != [] {
      var init, last := es[..|es| - 1], es[|es| - 1];
      FieldsLookup(init);
      assert forall i | 0 <= i < |init| :: init[i] == es[i];
      assert last.name !in Fields(init);
    }
  }

  function Field(name: string, present: bool, value: Json): map<string, Json> {
    if present then map[name := value] else map[]
  }

  const EMPTY_OBJECT := JObj(map[])

  function EncodeRef(r: ObjectRef): Json {
    JObj(map["name" := JStr(r.name)]
         + Field("namespace", r.namespace != "", JStr(r.namespace))
         + Field("tenant", r.tenant != "", JStr(r.tenant)))
  }

  function EncodeRefOpt(r: Option<ObjectRef>): Json {
    if r.Some? then EncodeRef(r.value) else JNull
  }

  function EncodeLocator(l: Option<SiteLocator>): Json {
    if l.None? then JNull
    else JObj(Field("site", l.value.site.Some?, EncodeRefOpt(l.value.site))
              + Field("virtual_site", l.value.virtualSite.Some?, EncodeRefOpt(l.value.virtualSite)))
  }

  function EncodePlacement(p: WirePlacement): map<string, Json> {
    Field("site_locator", p.locator.Some?, EncodeLocator(p.locator))
    + Field("inside_network", p.inside, EMPTY_OBJECT)
    + Field("outside_network", p.outside, EMPTY_OBJECT)
  }

  function EncodePrivate(key: string, p: Option<WirePrivate>): Json {
    if p.None? then JNull else JObj(map[key := JStr(p.value.target)] + EncodePlacement(p.value.placement))
  }

  function EncodeK8sService(k: Option<WireK8sService>): Json {
    if k.None? then JNull
    else JObj(map["service_name" := JStr(k.value.name)]
              + Field("service_namespace", k.value.namespace != "", JStr(k.value.namespace))
              + EncodePlacement(k.value.placement))
  }

  function EncodeName(key: string, s: Option<string>): Json {
    if s.None? then JNull else JObj(map[key := JStr(s.value)])
  }

  function OriginTags(w: WireOrigin): seq<Tagged> {
    [Tagged("public_ip", w.publicIP.Some?, EncodeName("ip", w.publicIP)),
     Tagged("public_name", w.publicName.Some?, EncodeName("dns_name", w.publicName)),
     Tagged("private_ip", w.privateIP.Some?, EncodePrivate("ip", w.privateIP)),
     Tagged("private_name", w.privateName.Some?, EncodePrivate("dns_name", w.privateName)),
     Tagged("k8s_service", w.k8sService.Some?, EncodeK8sService(w.k8sService)),
     Tagged("consul_service", w.consulService.Some?, EncodePrivate("service_name", w.consulService))]
  }

  function EncodeOrigin(w: WireOrigin): Json {
    JObj(Fields(OriginTags(w)))
  }

  function EncodeOrigins(ws: seq<WireOrigin>): Json {
    JArr(seq(|ws|, i requires 0 <= i < |ws| => EncodeOrigin(ws[i])))
  }

  function EncodeRefs(rs: seq<ObjectRef>): Json {
    JArr(seq(|rs|, i requires 0 <= i < |rs| => EncodeRef(rs[i])))
  }

  function SpecTags(w: WireSpec): seq<Tagged> {
    [Tagged("origin_servers", w.origins != [], EncodeOrigins(w.origins)),
     Tagged("port", w.port != 0, JNum(w.port as real)),
     Tagged("use_tls", w.useTLS.Some?, if w.useTLS.Some? then w.useTLS.value else JNull),
     Tagged("no_tls", w.noTLS, EMPTY_OBJECT),
     Tagged("loadbalancer_algorithm", w.algorithm != "", JStr(w.algorithm)),
     Tagged("healthcheck", w.healthChecks != [], EncodeRefs(w.healthChecks))]
  }

  function EncodeSpec(w: WireSpec): Json {
    JObj(Fields(SpecTags(w)))
  }

  /** The desired spec document of a pool. */
  function Payload(spec: OriginPoolSpec, resolved: seq<Option<ResolvedOrigin>>): Json {
    EncodeSpec(MapSpec(spec, resolved))
  }

  // ----- Round trip -----

  lemma RefRoundTrip(r: ObjectRef)
    ensures RefFits(EncodeRef(r).fields) && DecodeRef(EncodeRef(r).fields) == r
  {
    assert |"name"| == 4 && |"namespace"| == 9 && |"tenant"| == 6;
  }

  lemma LocatorRoundTrip(l: Option<SiteLocator>, fields: map<string, Json>)
    requires "site_locator" in fields <==> l.Some?
    requires l.Some? ==> fields["site_locator"] == EncodeLocator(l)
    ensures LocatorFits(fields) && DecodeLocator(fields) == l
  {
    assert |"site"| == 4 && |"virtual_site"| == 12;
    if l.Some? {
      var o := EncodeLocator(l).fields;
      assert "site" in o <==> l.value.site.Some?;
      assert "virtual_site" in o <==> l.value.virtualSite.Some?;
      if l.value.site.Some? { RefRoundTrip(l.value.site.value); }
      if l.value.virtualSite.Some? { RefRoundTrip(l.value.virtualSite.value); }
    }
  }

  lemma PlacementRoundTrip(p: WirePlacement, rest: map<string, Json>)
    requires "site_locator" !in rest && "inside_network" !in rest && "outside_network" !in rest
    ensures LocatorFits(rest + EncodePlacement(p)) && DecodePlacement(rest + EncodePlacement(p)) == p
  {
    var f := rest + EncodePlacement(p);
    assert |"site_locator"| == 12 && |"inside_network"| == 14 && |"outside_network"| == 15;
    assert "inside_network" in f <==> p.inside;
    assert "outside_network" in f <==> p.outside;
    LocatorRoundTrip(p.locator, f);
  }

  lemma PlacementKeysAreFree(key: string)
    requires key in {"ip", "dns_name", "service_name", "service_namespace"}
    ensures key !in {"site_locator", "inside_network", "outside_network"}
  {
    assert |"site_locator"| == 12 && |"inside_network"| == 14 && |"outside_network"| == 15;
    assert |"ip"| == 2 && |"dns_name"| == 8 && |"service_name"| == 12 && |"service_namespace"| == 17;
    assert "service_name"[1] == 'e' && "site_locator"[1] == 'i';
  }

  lemma PlacementKeys(p: WirePlacement)
    ensures EncodePlacement(p).Keys <= {"site_locator", "inside_network", "outside_network"}
  {
  }

  lemma TargetRoundTrip(key: string, p: WirePrivate)
    requires key in {"ip", "dns_name", "service_name"}
    ensures var f := map[key := JStr(p.target)] + EncodePlacement(p.placement);
            TextFits(f, key) && Text(f, key) == p.target && LocatorFits(f) && DecodePlacement(f) == p.placement
  {
    PlacementKeysAreFree(key);
    PlacementKeys(p.placement);
    PlacementRoundTrip(p.placement, map[key := JStr(p.target)]);
  }

  lemma PrivateRoundTrip(key: string, p: Option<WirePrivate>, fields: map<string, Json>, member: string)
    requires key in {"ip", "dns_name", "service_name"}
    requires member in fields <==> p.Some?
    requires p.Some? ==> fields[member] == EncodePrivate(key, p)
    ensures PrivateFits(fields, member, key) && DecodePrivate(fields, member, key) == p
  {
    if p.Some? {
      TargetRoundTrip(key, p.value);
    }
  }

  lemma K8sServiceRoundTrip(k: Option<WireK8sService>, fields: map<string, Json>)
    requires "k8s_service" in fields <==> k.Some?
    requires k.Some? ==> fields["k8s_service"] == EncodeK8sService(k)
    ensures K8sServiceFits(fields) && DecodeK8sService(fields) == k
  {
    if k.Some? {
      PlacementKeysAreFree("service_name");
      PlacementKeysAreFree("service_namespace");
      var rest := map["service_name" := JStr(k.value.name)]
        + Field("service_namespace", k.value.namespace != "", JStr(k.value.namespace));
      PlacementRoundTrip(k.value.placement, rest);
      var f := rest + EncodePlacement(k.value.placement);
      assert |"service_name"| == 12 && |"service_namespace"| == 17;
      assert f["service_name"] == JStr(k.value.name);
      assert "service_namespace" in f <==> k.value.namespace != "";
    }
  }

  lemma OriginTagsDiffer(w: WireOrigin)
    ensures DistinctTags(OriginTags(w))
  {
    assert |"public_ip"| == 9 && |"public_name"| == 11 && |"private_ip"| == 10 && |"private_name"| == 12;
    assert |"k8s_service"| == 11 && |"consul_service"| == 14;
    assert "k8s_service"[0] == 'k' && "public_name"[0] == 'p';
  }

  predicate Holds(f: map<string, Json>, name: string, present: bool, value: Json) {
    (name in f <==> present) && (present ==> f[name] == value)
  }

  lemma OriginMembers(w: WireOrigin)
    ensures forall i | 0 <= i < 6 ::
              Holds(EncodeOrigin(w).fields, OriginTags(w)[i].name, OriginTags(w)[i].present, OriginTags(w)[i].value)
  {
    OriginTagsDiffer(w);
    FieldsLookup(OriginTags(w));
  }

  lemma OriginFromMembers(w: WireOrigin, f: map<string, Json>)
    requires Holds(f, "public_ip", w.publicIP.Some?, EncodeName("ip", w.publicIP))
    requires Holds(f, "public_name", w.publicName.Some?, EncodeName("dns_name", w.publicName))
    requires Holds(f, "private_ip", w.privateIP.Some?, EncodePrivate("ip", w.privateIP))
    requires Holds(f, "private_name", w.privateName.Some?, EncodePrivate("dns_name", w.privateName))
    requires Holds(f, "k8s_service", w.k8sService.Some?, EncodeK8sService(w.k8sService))
    requires Holds(f, "consul_service", w.consulService.Some?, EncodePrivate("service_name", w.consulService))
    ensures OriginFits(JObj(f)) && DecodeOrigin(JObj(f)) == w
  {
    PrivateRoundTrip("ip", w.privateIP, f, "private_ip");
    PrivateRoundTrip("dns_name", w.privateName, f, "private_name");
    K8sServiceRoundTrip(w.k8sService, f);
    PrivateRoundTrip("service_name", w.consulService, f, "consul_service");
    assert DecodeName(f, "public_ip", "ip") == w.publicIP;
    assert DecodeName(f, "public_name", "dns_name") == w.publicName;
  }

  lemma OriginRoundTrip(w: WireOrigin)
    ensures OriginFits(EncodeOrigin(w)) && DecodeOrigin(EncodeOrigin(w)) == w
  {
    OriginMembers(w);
    var ts, f := OriginTags(w), EncodeOrigin(w).fields;
    assert Holds(f, ts[0].name, ts[0].present, ts[0].value);
    assert Holds(f, ts[1].name, ts[1].present, ts[1].value);
    assert Holds(f, ts[2].name, ts[2].present, ts[2].value);
    assert Holds(f, ts[3].name, ts[3].present, ts[3].value);
    assert Holds(f, ts[4].name, ts[4].present, ts[4].value);
    assert Holds(f, ts[5].name, ts[5].present, ts[5].value);
    OriginFromMembers(w, f);
  }

  lemma SpecTagsDiffer(w: WireSpec)
    ensures DistinctTags(SpecTags(w))
  {
    assert |"origin_servers"| == 14 && |"port"| == 4 && |"use_tls"| == 7 && |"no_tls"| == 6;
    assert |"loadbalancer_algorithm"| == 22 && |"healthcheck"| == 11;
  }

  lemma OriginsRoundTrip(ws: seq<WireOrigin>)
    ensures forall i | 0 <= i < |ws| :: OriginFits(EncodeOrigins(ws).elems[i]) && DecodeOrigin(EncodeOrigins(ws).elems[i]) == ws[i]
  {
    forall i | 0 <= i < |ws| ensures OriginFits(EncodeOrigins(ws).elems[i]) && DecodeOrigin(EncodeOrigins(ws).elems[i]) == ws[i] {
      OriginRoundTrip(ws[i]);
    }
  }

  lemma RefsRoundTrip(rs: seq<ObjectRef>)
    ensures forall i | 0 <= i < |rs| :: EncodeRefs(rs).elems[i].JObj? && RefFits(EncodeRefs(rs).elems[i].fields) && DecodeRef(EncodeRefs(rs).elems[i].fields) == rs[i]
  {
    forall i | 0 <= i < |rs|
      ensures EncodeRefs(rs).elems[i].JObj? && RefFits(EncodeRefs(rs).elems[i].fields) && DecodeRef(EncodeRefs(rs).elems[i].fields) == rs[i]
    {
      RefRoundTrip(rs[i]);
    }
  }

  /** Ports that a decoded JSON number holds exactly; every mapped spec's port is one. */
  predicate ExactPort(w: WireSpec) {
    -MAX_SAFE <= w.port <= MAX_SAFE
  }

  lemma SpecMembers(w: WireSpec)
    ensures forall i | 0 <= i < 6 ::
              Holds(EncodeSpec(w).fields, SpecTags(w)[i].name, SpecTags(w)[i].present, SpecTags(w)[i].value)
  {
    SpecTagsDiffer(w);
    FieldsLookup(SpecTags(w));
  }

  lemma SpecFromMembers(w: WireSpec, f: map<string, Json>)
    requires ExactPort(w)
    requires Holds(f, "origin_servers", w.origins != [], EncodeOrigins(w.origins))
    requires Holds(f, "port", w.port != 0, JNum(w.port as real))
    requires Holds(f, "use_tls", w.useTLS.Some?, if w.useTLS.Some? then w.useTLS.value else JNull)
    requires Holds(f, "no_tls", w.noTLS, EMPTY_OBJECT)
    requires Holds(f, "loadbalancer_algorithm", w.algorithm != "", JStr(w.algorithm))
    requires Holds(f, "healthcheck", w.healthChecks != [], EncodeRefs(w.healthChecks))
    ensures DecodeSpec(JObj(f)) == Some(w)
  {
    OriginsRoundTrip(w.origins);
    RefsRoundTrip(w.healthChecks);
    var d := ReadSpec(JObj(f));
    assert d.origins == w.origins;
    assert d.healthChecks == w.healthChecks;
  }

  /** The encoded spec decodes, and to the spec: the encoding loses nothing, in spite of `omitempty`. */
  lemma SpecRoundTrip(w: WireSpec)
    requires ExactPort(w)
    ensures DecodeSpec(EncodeSpec(w)) == Some(w)
  {
    SpecMembers(w);
    var ts, f := SpecTags(w), EncodeSpec(w).fields;
    assert Holds(f, ts[0].name, ts[0].present, ts[0].value);
    assert Holds(f, ts[1].name, ts[1].present, ts[1].value);
    assert Holds(f, ts[2].name, ts[2].present, ts[2].value);
    assert Holds(f, ts[3].name, ts[3].present, ts[3].value);
    assert Holds(f, ts[4].name, ts[4].present, ts[4].value);
    assert Holds(f, ts[5].name, ts[5].present, ts[5].value);
    SpecFromMembers(w, f);
  }

  /** Whatever the pool and its origins, the client can read back what the operator sends. */
  lemma PayloadDecodes(spec: OriginPoolSpec, resolved: seq<Option<ResolvedOrigin>>)
    ensures SpecDecodes(Payload(spec, resolved)) && Diff.IsMapDocument(Payload(spec, resolved))
    ensures DecodeSpec(Payload(spec, resolved)) == Some(MapSpec(spec, resolved))
  {
    SpecRoundTrip(MapSpec(spec, resolved));
  }

  // ----- The TLS block -----

  function SecurityTags(t: PoolTls): seq<Tagged> {
    [Tagged("default_security", t.defaultSecurity, EMPTY_OBJECT),
     Tagged("low_security", t.lowSecurity, EMPTY_OBJECT),
     Tagged("medium_security", t.mediumSecurity, EMPTY_OBJECT),
     Tagged("custom_security", t.customSecurity.Some?, EncodeCiphers(t.customSecurity))]
  }

  function EncodeCiphers(suites: Option<seq<string>>): Json {
    if suites.None? then JNull
    else
      var texts := seq(|suites.value|, i requires 0 <= i < |suites.value| => JStr(suites.value[i]));
      JObj(Field("cipher_suites", suites.value != [], JArr(texts)))
  }

  function TlsTags(t: PoolTls): seq<Tagged> {
    [Tagged("tls_config", true, JObj(Fields(SecurityTags(t)))),
     Tagged("sni", t.sni != "", JStr(t.sni)),
     Tagged("volterra_trusted_ca", t.volterraTrustedCA, EMPTY_OBJECT),
     Tagged("trusted_ca_url", t.trustedCAURL != "", JStr(t.trustedCAURL)),
     Tagged("disable_sni", t.disableSNI, EMPTY_OBJECT),
     Tagged("use_server_verification", t.useServerVerification, EMPTY_OBJECT),
     Tagged("skip_server_verification", t.skipServerVerification, EMPTY_OBJECT),
     Tagged("no_mtls", t.noMTLS, EMPTY_OBJECT)]
  }

  /** `mapOriginPoolTLS` and its encoding: `tls_config` is always there, even when empty. */
  function MapTls(t: PoolTls): Json {
    JObj(Fields(TlsTags(t)))
  }

  lemma TlsTagsDiffer(t: PoolTls)
    ensures DistinctTags(TlsTags(t)) && DistinctTags(SecurityTags(t))
  {
    assert |"tls_config"| == 10 && |"sni"| == 3 && |"volterra_trusted_ca"| == 19 && |"trusted_ca_url"| == 14;
    assert |"disable_sni"| == 11 && |"use_server_verification"| == 23 && |"skip_server_verification"| == 24 && |"no_mtls"| == 7;
    assert |"default_security"| == 16 && |"low_security"| == 12 && |"medium_security"| == 15 && |"custom_security"| == 15;
    assert "medium_security"[0] == 'm' && "custom_security"[0] == 'c';
  }

  lemma CiphersDiffer(a: seq<string>, b: seq<string>)
    ensures EncodeCiphers(Some(a)) == EncodeCiphers(Some(b)) ==> a == b
  {
    if EncodeCiphers(Some(a)) == EncodeCiphers(Some(b)) {
      var fa, fb := EncodeCiphers(Some(a)).fields, EncodeCiphers(Some(b)).fields;
      assert "cipher_suites" in fa <==> a != [];
      assert "cipher_suites" in fb <==> b != [];
      if a != [] {
        var ta, tb := fa["cipher_suites"].elems, fb["cipher_suites"].elems;
        assert forall i | 0 <= i < |a| :: ta[i] == JStr(a[i]) && tb[i] == JStr(b[i]);
      }
    }
  }

  lemma SecurityDiffers(a: PoolTls, b: PoolTls)
    requires Fields(SecurityTags(a)) == Fields(SecurityTags(b))
    ensures a.defaultSecurity == b.defaultSecurity && a.lowSecurity == b.lowSecurity
    ensures a.mediumSecurity == b.mediumSecurity && a.customSecurity == b.customSecurity
  {
    TlsTagsDiffer(a);
    TlsTagsDiffer(b);
    SameMembers(SecurityTags(a), SecurityTags(b), 0);
    SameMembers(SecurityTags(a), SecurityTags(b), 1);
    SameMembers(SecurityTags(a), SecurityTags(b), 2);
    SameMembers(SecurityTags(a), SecurityTags(b), 3);
    if a.customSecurity.Some? && b.customSecurity.Some? {
      CiphersDiffer(a.customSecurity.value, b.customSecurity.value);
    }
  }

  /** Equal encodings agree on each tag: there or not, and with the same value. */
  lemma SameMembers(xs: seq<Tagged>, ys: seq<Tagged>, i: nat)
    requires Fields(xs) == Fields(ys) && DistinctTags(xs) && DistinctTags(ys)
    requires i < |xs| == |ys| && xs[i].name == ys[i].name
    ensures xs[i].present == ys[i].present && (xs[i].present ==> xs[i].value == ys[i].value)
  {
    FieldsLookup(xs);
    FieldsLookup(ys);
  }

  /** Every change of the TLS block shows in what is sent. */
  lemma TlsIsExact(a: PoolTls, b: PoolTls)
    ensures MapTls(a) == MapTls(b) <==> a == b
  {
    if MapTls(a) == MapTls(b) {
      TlsTagsDiffer(a);
      TlsTagsDiffer(b);
      var xs, ys := TlsTags(a), TlsTags(b);
      SameMembers(xs, ys, 0);
      SameMembers(xs, ys, 1);
      SameMembers(xs, ys, 2);
      SameMembers(xs, ys, 3);
      SameMembers(xs, ys, 4);
      SameMembers(xs, ys, 5);
      SameMembers(xs, ys, 6);
      SameMembers(xs, ys, 7);
      SecurityDiffers(a, b);
    }
  }

  // ----- The payload under the drift comparison -----

  lemma NothingToStrip(w: WireSpec)
    ensures Diff.Canonical(EncodeSpec(w)) == EncodeSpec(w)
  {
    SpecTagsDiffer(w);
    var ts := SpecTags(w);
    FieldsLookup(ts);
    var f := Fields(ts);
    NoTagIsServerManaged(w);
    assert f - Diff.SERVER_MANAGED_TOP_LEVEL == f;
    assert Diff.METADATA !in f;
  }

  lemma NoTagIsServerManaged(w: WireSpec)
    ensures forall i | 0 <= i < |SpecTags(w)| ::
              SpecTags(w)[i].name !in Diff.SERVER_MANAGED_TOP_LEVEL && SpecTags(w)[i].name != Diff.METADATA
  {
    assert |"origin_servers"| == 14 && |"port"| == 4 && |"use_tls"| == 7 && |"no_tls"| == 6;
    assert |"loadbalancer_algorithm"| == 22 && |"healthcheck"| == 11 && |Diff.METADATA| == 8;
    assert |"system_metadata"| == 15 && |"status"| == 6 && |"referring_objects"| == 17;
    assert |"create_form"| == 11 && |"replace_form"| == 12;
    assert "status"[0] == 's' && "no_tls"[0] == 'n' && "create_form"[0] == 'c' && "healthcheck"[0] == 'h';
  }

  /**
   The drift comparison sees every change of the payload and nothing else: no
   payload member is server-managed, and encoding is injective.
   */
  lemma DriftComparisonIsExact(a: WireSpec, b: WireSpec)
    requires ExactPort(a) && ExactPort(b)
    ensures Diff.Compare(EncodeSpec(a), EncodeSpec(b)) == Ok(a != b)
  {
    NothingToStrip(a);
    NothingToStrip(b);
    SpecRoundTrip(a);
    SpecRoundTrip(b);
  }

  /** Hence the operator replaces the object after any edit of the TLS block, and only then if nothing else changed. */
  lemma TlsEditsAreSeen(spec: OriginPoolSpec, edited: OriginPoolSpec, resolved: seq<Option<ResolvedOrigin>>)
    requires edited == spec.(useTLS := edited.useTLS)
    ensures Diff.Compare(Payload(spec, resolved), Payload(edited, resolved)) == Ok(spec.useTLS != edited.useTLS)
  {
    DriftComparisonIsExact(MapSpec(spec, resolved), MapSpec(edited, resolved));
    assert MapSpec(edited, resolved).origins == MapSpec(spec, resolved).origins;
    if spec.useTLS.Some? && edited.useTLS.Some? {
      TlsIsExact(spec.useTLS.value, edited.useTLS.value);
    }
  }
}
