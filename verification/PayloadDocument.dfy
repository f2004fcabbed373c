/**
 The document sent to the XC API, member by member, from the fields of the custom
 resource: what internal/controller/originpool_mapper.go and the struct tags of
 internal/xcclient/originpool.go come to together.
 */
module PayloadDocument {
  import opened Wrappers
  import opened Json
  import opened OriginPoolTypes
  import opened OriginPoolMapper

  type Members = map<string, Json>

  predicate HasText(f: Members, name: string, s: string) {
    name in f && f[name] == JStr(s)
  }

  /** Text that is left out when empty. */
  predicate HasOptionalText(f: Members, name: string, s: string) {
    if s == "" then name !in f else HasText(f, name, s)
  }

  /** An empty object that is there or not. */
  predicate HasMarker(f: Members, name: string, present: bool) {
    if present then name in f && f[name] == JObj(map[]) else name !in f
  }

  predicate IsRef(j: Json, r: ObjectRef) {
    j.JObj? && HasText(j.fields, "name", r.name) && HasOptionalText(j.fields, "namespace", r.namespace)
    && HasOptionalText(j.fields, "tenant", r.tenant)
  }

  predicate HasRef(f: Members, name: string, r: Option<ObjectRef>) {
    if r.None? then name !in f else name in f && IsRef(f[name], r.value)
  }

  predicate IsLocator(j: Json, p: Placement) {
    j.JObj? && HasRef(j.fields, "site", p.site) && HasRef(j.fields, "virtual_site", p.virtualSite)
  }

  /** A site or virtual site, if there is one, and one network: the inside one wins over the outside one. */
  predicate HasPlacement(f: Members, p: Placement) {
    && HasMarker(f, "inside_network", p.inside)
    && HasMarker(f, "outside_network", p.outside && !p.inside)
    && (if p.site.None? && p.virtualSite.None? then "site_locator" !in f
        else "site_locator" in f && IsLocator(f["site_locator"], p))
  }

  predicate HasPrivate(f: Members, name: string, key: string, p: Option<Private>) {
    if p.None? then name !in f
    else name in f && f[name].JObj? && HasText(f[name].fields, key, p.value.target) && HasPlacement(f[name].fields, p.value.placement)
  }

  predicate HasK8sService(f: Members, k: Option<K8sService>) {
    if k.None? then "k8s_service" !in f
    else
      && "k8s_service" in f && f["k8s_service"].JObj?
      && HasText(f["k8s_service"].fields, "service_name", k.value.name)
      && HasOptionalText(f["k8s_service"].fields, "service_namespace", k.value.namespace)
      && HasPlacement(f["k8s_service"].fields, k.value.placement)
  }

  predicate HasName(f: Members, name: string, key: string, s: Option<string>) {
    if s.None? then name !in f else name in f && f[name] == JObj(map[key := JStr(s.value)])
  }

  /** An origin server sent as its user wrote it. */
  predicate IsOrigin(j: Json, s: OriginServer) {
    && j.JObj?
    && HasName(j.fields, "public_ip", "ip", s.publicIP)
    && HasName(j.fields, "public_name", "dns_name", s.publicName)
    && HasPrivate(j.fields, "private_ip", "ip", s.privateIP)
    && HasPrivate(j.fields, "private_name", "dns_name", s.privateName)
    && HasK8sService(j.fields, s.k8sService)
    && HasPrivate(j.fields, "consul_service", "service_name", s.consulService)
  }

  /** An origin that discovery found: a public IP or a public name, and nothing else. */
  predicate IsAddress(j: Json, o: ResolvedOrigin) {
    j == JObj(if o.addressType.IP?
              then map["public_ip" := JObj(map["ip" := JStr(o.address)])]
              else map["public_name" := JObj(map["dns_name" := JStr(o.address)])])
  }

  /** The members of `tls_config` and the block around it. */
  predicate IsTls(j: Json, t: PoolTls) {
    && j.JObj? && "tls_config" in j.fields && j.fields["tls_config"].JObj?
    && (var security := j.fields["tls_config"].fields;
        && HasMarker(security, "default_security", t.defaultSecurity)
        && HasMarker(security, "low_security", t.lowSecurity)
        && HasMarker(security, "medium_security", t.mediumSecurity)
        && HasCiphers(security, t.customSecurity))
    && HasOptionalText(j.fields, "sni", t.sni)
    && HasMarker(j.fields, "volterra_trusted_ca", t.volterraTrustedCA)
    && HasOptionalText(j.fields, "trusted_ca_url", t.trustedCAURL)
    && HasMarker(j.fields, "disable_sni", t.disableSNI)
    && HasMarker(j.fields, "use_server_verification", t.useServerVerification)
    && HasMarker(j.fields, "skip_server_verification", t.skipServerVerification)
    && HasMarker(j.fields, "no_mtls", t.noMTLS)
  }

  predicate HasCiphers(f: Members, suites: Option<seq<string>>) {
    if suites.None? then "custom_security" !in f
    else
      && "custom_security" in f && f["custom_security"].JObj?
      && (var g := f["custom_security"].fields;
          if suites.value == [] then "cipher_suites" !in g
          else "cipher_suites" in g && g["cipher_suites"].JArr? && |g["cipher_suites"].elems| == |suites.value|
               && forall i | 0 <= i < |suites.value| :: g["cipher_suites"].elems[i] == JStr(suites.value[i]))
  }

  /** One element per origin server, in order: resolved where there is a resolved origin, else as written. */
  predicate HasOrigins(f: Members, servers: seq<OriginServer>, resolved: seq<Option<ResolvedOrigin>>) {
    if servers == [] then "origin_servers" !in f
    else
      && "origin_servers" in f && f["origin_servers"].JArr? && |f["origin_servers"].elems| == |servers|
      && forall i | 0 <= i < |servers| ::
           if i < |resolved| && resolved[i].Some? then IsAddress(f["origin_servers"].elems[i], resolved[i].value)
           else IsOrigin(f["origin_servers"].elems[i], servers[i])
  }

  predicate HasHealthChecks(f: Members, checks: seq<ObjectRef>) {
    if checks == [] then "healthcheck" !in f
    else
      && "healthcheck" in f && f["healthcheck"].JArr? && |f["healthcheck"].elems| == |checks|
      && forall i | 0 <= i < |checks| :: IsRef(f["healthcheck"].elems[i], checks[i])
  }

  /** The whole document. Its port is the pool's own, whatever discovery found. */
  predicate IsPayload(j: Json, spec: OriginPoolSpec, resolved: seq<Option<ResolvedOrigin>>) {
    && j.JObj?
    && HasOrigins(j.fields, spec.originServers, resolved)
    && (if spec.port == 0 then "port" !in j.fields else "port" in j.fields && j.fields["port"] == JNum(spec.port as real))
    && HasOptionalText(j.fields, "loadbalancer_algorithm", spec.loadBalancerAlgorithm)
    && HasHealthChecks(j.fields, spec.healthChecks)
    && HasMarker(j.fields, "no_tls", spec.noTLS)
    && (if spec.useTLS.None? then "use_tls" !in j.fields else "use_tls" in j.fields && IsTls(j.fields["use_tls"], spec.useTLS.value))
    && j.fields.Keys <= {"origin_servers", "port", "loadbalancer_algorithm", "healthcheck", "no_tls", "use_tls"}
  }

  // ----- Proof -----

  lemma RefIsSent(r: ObjectRef)
    ensures IsRef(EncodeRef(r), r)
  {
    assert |"name"| == 4 && |"namespace"| == 9 && |"tenant"| == 6;
  }

  lemma LocatorIsSent(p: Placement)
    requires p.site.Some? || p.virtualSite.Some?
    ensures IsLocator(EncodeLocator(Some(SiteLocator(p.site, p.virtualSite))), p)
  {
    assert |"site"| == 4 && |"virtual_site"| == 12;
    if p.site.Some? { RefIsSent(p.site.value); }
    if p.virtualSite.Some? { RefIsSent(p.virtualSite.value); }
  }

  lemma PlacementIsSent(p: Placement, rest: Members)
    requires "site_locator" !in rest && "inside_network" !in rest && "outside_network" !in rest
    ensures HasPlacement(rest + EncodePlacement(MapPlacement(p)), p)
  {
    assert |"site_locator"| == 12 && |"inside_network"| == 14 && |"outside_network"| == 15;
    var w := MapPlacement(p);
    var f := rest + EncodePlacement(w);
    assert Holds(f, "inside_network", w.inside, EMPTY_OBJECT);
    assert Holds(f, "outside_network", w.outside, EMPTY_OBJECT);
    assert Holds(f, "site_locator", w.locator.Some?, EncodeLocator(w.locator));
    if p.site.Some? || p.virtualSite.Some? {
      LocatorIsSent(p);
    }
  }

  lemma PrivateIsSent(f: Members, name: string, key: string, p: Option<Private>)
    requires key in {"ip", "dns_name", "service_name"}
    requires Holds(f, name, MapPrivate(p).Some?, EncodePrivate(key, MapPrivate(p)))
    ensures HasPrivate(f, name, key, p)
  {
    if p.Some? {
      PlacementKeysAreFree(key);
      PlacementKeys(MapPlacement(p.value.placement));
      PlacementIsSent(p.value.placement, map[key := JStr(p.value.target)]);
    }
  }

  lemma K8sServiceIsSent(f: Members, k: Option<K8sService>)
    requires Holds(f, "k8s_service", MapK8sService(k).Some?, EncodeK8sService(MapK8sService(k)))
    ensures HasK8sService(f, k)
  {
    if k.Some? {
      PlacementKeysAreFree("service_name");
      PlacementKeysAreFree("service_namespace");
      PlacementKeys(MapPlacement(k.value.placement));
      assert |"service_name"| == 12 && |"service_namespace"| == 17;
      PlacementIsSent(k.value.placement,
        map["service_name" := JStr(k.value.name)] + Field("service_namespace", k.value.namespace != "", JStr(k.value.namespace)));
    }
  }

  lemma OriginIsSent(s: OriginServer)
    ensures IsOrigin(EncodeOrigin(MapOriginServer(s)), s)
  {
    var w := MapOriginServer(s);
    OriginMembers(w);
    var ts, f := OriginTags(w), EncodeOrigin(w).fields;
    assert Holds(f, ts[0].name, ts[0].present, ts[0].value);
    assert Holds(f, ts[1].name, ts[1].present, ts[1].value);
    assert Holds(f, ts[2].name, ts[2].present, ts[2].value);
    assert Holds(f, ts[3].name, ts[3].present, ts[3].value);
    assert Holds(f, ts[4].name, ts[4].present, ts[4].value);
    assert Holds(f, ts[5].name, ts[5].present, ts[5].value);
    PrivateIsSent(f, "private_ip", "ip", s.privateIP);
    PrivateIsSent(f, "private_name", "dns_name", s.privateName);
    K8sServiceIsSent(f, s.k8sService);
    PrivateIsSent(f, "consul_service", "service_name", s.consulService);
  }

  lemma AddressIsSent(o: ResolvedOrigin)
    ensures IsAddress(EncodeOrigin(MapResolvedOriginServer(o)), o)
  {
    var w := MapResolvedOriginServer(o);
    OriginTagsDiffer(w);
    FieldsLookup(OriginTags(w));
    var ts, f := OriginTags(w), EncodeOrigin(w).fields;
    assert ts[0].name == "public_ip" && ts[1].name == "public_name";
    forall k | k in f
      ensures k == if o.addressType.IP? then "public_ip" else "public_name"
    {
      var i :| 0 <= i < |ts| && ts[i].name == k;
      assert ts[i].present;
    }
    if o.addressType.IP? {
      assert ts[0].present && f[ts[0].name] == ts[0].value;
      assert f == map["public_ip" := JObj(map["ip" := JStr(o.address)])];
    } else {
      assert ts[1].present && f[ts[1].name] == ts[1].value;
      assert f == map["public_name" := JObj(map["dns_name" := JStr(o.address)])];
    }
  }

  lemma TlsIsSent(t: PoolTls)
    ensures IsTls(MapTls(t), t)
  {
    TlsTagsDiffer(t);
    FieldsLookup(TlsTags(t));
    SecurityIsSent(t);
    var ts, f := TlsTags(t), MapTls(t).fields;
    assert ts[0].name in f && f[ts[0].name] == ts[0].value;
    assert Holds(f, ts[1].name, ts[1].present, ts[1].value);
    assert Holds(f, ts[2].name, ts[2].present, ts[2].value);
    assert Holds(f, ts[3].name, ts[3].present, ts[3].value);
    assert Holds(f, ts[4].name, ts[4].present, ts[4].value);
    assert Holds(f, ts[5].name, ts[5].present, ts[5].value);
    assert Holds(f, ts[6].name, ts[6].present, ts[6].value);
    assert Holds(f, ts[7].name, ts[7].present, ts[7].value);
  }

  lemma SecurityIsSent(t: PoolTls)
    ensures var f := Fields(SecurityTags(t));
            && HasMarker(f, "default_security", t.defaultSecurity) && HasMarker(f, "low_security", t.lowSecurity)
            && HasMarker(f, "medium_security", t.mediumSecurity) && HasCiphers(f, t.customSecurity)
  {
    TlsTagsDiffer(t);
    FieldsLookup(SecurityTags(t));
    var ts, f := SecurityTags(t), Fields(SecurityTags(t));
    assert Holds(f, ts[0].name, ts[0].present, ts[0].value);
    assert Holds(f, ts[1].name, ts[1].present, ts[1].value);
    assert Holds(f, ts[2].name, ts[2].present, ts[2].value);
    assert Holds(f, ts[3].name, ts[3].present, ts[3].value);
  }

  lemma OriginsAreSent(f: Members, spec: OriginPoolSpec, resolved: seq<Option<ResolvedOrigin>>)
    requires var origins := MapSpec(spec, resolved).origins; Holds(f, "origin_servers", origins != [], EncodeOrigins(origins))
    ensures HasOrigins(f, spec.originServers, resolved)
  {
    forall i | 0 <= i < |spec.originServers|
      ensures var j := EncodeOrigins(MapSpec(spec, resolved).origins).elems[i];
              if i < |resolved| && resolved[i].Some? then IsAddress(j, resolved[i].value) else IsOrigin(j, spec.originServers[i])
    {
      if i < |resolved| && resolved[i].Some? {
        AddressIsSent(resolved[i].value);
      } else {
        OriginIsSent(spec.originServers[i]);
      }
    }
  }

  lemma HealthChecksAreSent(f: Members, checks: seq<ObjectRef>)
    requires Holds(f, "healthcheck", checks != [], EncodeRefs(checks))
    ensures HasHealthChecks(f, checks)
  {
    forall i | 0 <= i < |checks| ensures IsRef(EncodeRefs(checks).elems[i], checks[i]) {
      RefIsSent(checks[i]);
    }
  }

  lemma NoOtherMembers(w: WireSpec)
    ensures EncodeSpec(w).fields.Keys <= {"origin_servers", "port", "loadbalancer_algorithm", "healthcheck", "no_tls", "use_tls"}
  {
    SpecTagsDiffer(w);
    FieldsLookup(SpecTags(w));
  }

  /** What the operator sends for a pool is this document, member by member. */
  lemma PayloadIsSent(spec: OriginPoolSpec, resolved: seq<Option<ResolvedOrigin>>)
    ensures IsPayload(Payload(spec, resolved), spec, resolved)
  {
    var w := MapSpec(spec, resolved);
    SpecMembers(w);
    NoOtherMembers(w);
    var ts, f := SpecTags(w), EncodeSpec(w).fields;
    assert Holds(f, ts[0].name, ts[0].present, ts[0].value);
    assert Holds(f, ts[1].name, ts[1].present, ts[1].value);
    assert Holds(f, ts[2].name, ts[2].present, ts[2].value);
    assert Holds(f, ts[3].name, ts[3].present, ts[3].value);
    assert Holds(f, ts[4].name, ts[4].present, ts[4].value);
    assert Holds(f, ts[5].name, ts[5].present, ts[5].value);
    OriginsAreSent(f, spec, resolved);
    HealthChecksAreSent(f, spec.healthChecks);
    if spec.useTLS.Some? {
      TlsIsSent(spec.useTLS.value);
    }
  }
}
