/**
 How the client's types read an origin pool back (internal/xcclient/originpool.go,
 types.go): which JSON trees decode at all, and into what. Unknown members are
 ignored, `null` leaves a field at its zero value, and any other mismatch between a
 member and its type fails the whole object.
 */
module PoolDecoding {
  import opened Wrappers
  import opened Json
  import opened OriginPoolTypes

  type Fields = map<string, Json>

  // ----- What decodes -----

  predicate TextFits(fields: Fields, key: string) {
    key in fields ==> fields[key].JStr? || fields[key].JNull?
  }

  predicate ObjectFits(fields: Fields, key: string) {
    key in fields ==> fields[key].JObj? || fields[key].JNull?
  }

  predicate RefFits(fields: Fields) {
    TextFits(fields, "name") && TextFits(fields, "namespace") && TextFits(fields, "tenant")
  }

  predicate RefAtFits(fields: Fields, key: string) {
    ObjectFits(fields, key) && (Object(fields, key).Some? ==> RefFits(Object(fields, key).value))
  }

  predicate LocatorFits(fields: Fields) {
    var o := Object(fields, "site_locator");
    ObjectFits(fields, "site_locator") && (o.Some? ==> RefAtFits(o.value, "site") && RefAtFits(o.value, "virtual_site"))
  }

  predicate NameFits(fields: Fields, member: string, key: string) {
    ObjectFits(fields, member) && (Object(fields, member).Some? ==> TextFits(Object(fields, member).value, key))
  }

  /** The two network members are kept as raw JSON: anything fits them. */
  predicate PrivateFits(fields: Fields, member: string, key: string) {
    NameFits(fields, member, key) && (Object(fields, member).Some? ==> LocatorFits(Object(fields, member).value))
  }

  predicate K8sServiceFits(fields: Fields) {
    PrivateFits(fields, "k8s_service", "service_name") && NameFits(fields, "k8s_service", "service_namespace")
  }

  predicate OriginFits(j: Json) {
    j.JNull? ||
    (&& j.JObj?
     && NameFits(j.fields, "public_ip", "ip")
     && NameFits(j.fields, "public_name", "dns_name")
     && PrivateFits(j.fields, "private_ip", "ip")
     && PrivateFits(j.fields, "private_name", "dns_name")
     && K8sServiceFits(j.fields)
     && PrivateFits(j.fields, "consul_service", "service_name"))
  }

  predicate RefElementFits(j: Json) {
    j.JNull? || (j.JObj? && RefFits(j.fields))
  }

  predicate ListFits(fields: Fields, key: string) {
    key in fields ==> fields[key].JArr? || fields[key].JNull?
  }

  predicate IntFits(fields: Fields, key: string) {
    key in fields ==>
      || fields[key].JNull?
      || (fields[key].JNum? && fields[key].n == fields[key].n.Floor as real && INT64_MIN <= fields[key].n.Floor <= INT64_MAX)
  }

  predicate SpecDecodes(j: Json) {
    j.JNull? ||
    (&& j.JObj?
     && ListFits(j.fields, "origin_servers")
     && (forall i | 0 <= i < |Elements(j.fields, "origin_servers")| :: OriginFits(Elements(j.fields, "origin_servers")[i]))
     && IntFits(j.fields, "port")
     && TextFits(j.fields, "loadbalancer_algorithm")
     && ListFits(j.fields, "healthcheck")
     && (forall i | 0 <= i < |Elements(j.fields, "healthcheck")| :: RefElementFits(Elements(j.fields, "healthcheck")[i])))
  }

  predicate TextMapFits(fields: Fields, key: string) {
    ObjectFits(fields, key) && (Object(fields, key).Some? ==> forall k | k in Object(fields, key).value :: TextFits(Object(fields, key).value, k))
  }

  predicate MetadataDecodes(fields: Fields) {
    && TextFits(fields, "name") && TextFits(fields, "namespace") && TextFits(fields, "description")
    && TextFits(fields, "resource_version") && TextFits(fields, "uid")
    && TextMapFits(fields, "labels") && TextMapFits(fields, "annotations")
    && ("disable" in fields ==> fields["disable"].JBool? || fields["disable"].JNull?)
  }

  // ----- What it decodes to -----

  function Text(fields: Fields, key: string): string {
    if key in fields && fields[key].JStr? then fields[key].s else ""
  }

  function Object(fields: Fields, key: string): Option<Fields> {
    if key in fields && fields[key].JObj? then Some(fields[key].fields) else None
  }

  function Elements(fields: Fields, key: string): seq<Json> {
    if key in fields && fields[key].JArr? then fields[key].elems else []
  }

  function DecodeRef(fields: Fields): ObjectRef {
    ObjectRef(Text(fields, "name"), Text(fields, "namespace"), Text(fields, "tenant"))
  }

  function DecodeRefAt(fields: Fields, key: string): Option<ObjectRef> {
    var o := Object(fields, key);
    if o.None? then None else Some(DecodeRef(o.value))
  }

  function DecodeLocator(fields: Fields): Option<SiteLocator> {
    var o := Object(fields, "site_locator");
    if o.None? then None else Some(SiteLocator(DecodeRefAt(o.value, "site"), DecodeRefAt(o.value, "virtual_site")))
  }

  function DecodePlacement(fields: Fields): WirePlacement {
    WirePlacement(
      DecodeLocator(fields),
      "inside_network" in fields,
      "outside_network" in fields)
  }

  function DecodePrivate(fields: Fields, member: string, key: string): Option<WirePrivate> {
    var o := Object(fields, member);
    if o.None? then None else Some(WirePrivate(Text(o.value, key), DecodePlacement(o.value)))
  }

  function DecodeK8sService(fields: Fields): Option<WireK8sService> {
    var o := Object(fields, "k8s_service");
    if o.None? then None
    else Some(WireK8sService(Text(o.value, "service_name"), Text(o.value, "service_namespace"), DecodePlacement(o.value)))
  }

  function DecodeName(fields: Fields, member: string, key: string): Option<string> {
    var o := Object(fields, member);
    if o.None? then None else Some(Text(o.value, key))
  }

  function DecodeOrigin(j: Json): WireOrigin {
    var fields := if j.JObj? then j.fields else map[];
    WireOrigin(
      DecodeName(fields, "public_ip", "ip"),
      DecodeName(fields, "public_name", "dns_name"),
      DecodePrivate(fields, "private_ip", "ip"),
      DecodePrivate(fields, "private_name", "dns_name"),
      DecodeK8sService(fields),
      DecodePrivate(fields, "consul_service", "service_name"))
  }

  function DecodePort(fields: Fields): int {
    if "port" in fields && fields["port"].JNum? then fields["port"].n.Floor else 0
  }

  function ReadSpec(j: Json): WireSpec {
    var fields := if j.JObj? then j.fields else map[];
    var origins, checks := Elements(fields, "origin_servers"), Elements(fields, "healthcheck");
    WireSpec(
      seq(|origins|, i requires 0 <= i < |origins| => DecodeOrigin(origins[i])),
      DecodePort(fields),
      if "use_tls" in fields then Some(fields["use_tls"]) else None,
      "no_tls" in fields,
      Text(fields, "loadbalancer_algorithm"),
      seq(|checks|, i requires 0 <= i < |checks| => DecodeRef(if checks[i].JObj? then checks[i].fields else map[])))
  }

  /** The spec as the client's types hold it, or nothing when decoding fails. */
  function DecodeSpec(j: Json): Option<WireSpec> {
    if SpecDecodes(j) then Some(ReadSpec(j)) else None
  }

  // ----- What does not decode -----

  predicate IsText(j: Json) {
    j.JStr? || j.JNull?
  }

  predicate IsObject(j: Json) {
    j.JObj? || j.JNull?
  }

  /** A whole number that an int64 holds. */
  predicate IsInt64(j: Json) {
    j.JNull? || (j.JNum? && -0x8000_0000_0000_0000 <= j.n.Floor < 0x8000_0000_0000_0000 && j.n - j.n.Floor as real == 0.0)
  }

  /** A spec decodes only if every member the client knows has its type: number, text and lists at the top. */
  lemma SpecNeedsTypes(j: Json)
    requires SpecDecodes(j)
    ensures IsObject(j)
    ensures j.JObj? ==>
              && ("port" in j.fields ==> IsInt64(j.fields["port"]))
              && ("loadbalancer_algorithm" in j.fields ==> IsText(j.fields["loadbalancer_algorithm"]))
              && ("origin_servers" in j.fields ==> IsListOf(j.fields["origin_servers"], OriginHasTypes))
              && ("healthcheck" in j.fields ==> IsListOf(j.fields["healthcheck"], RefHasTypes))
  {
    if j.JObj? {
      if "port" in j.fields && j.fields["port"].JNum? {
        assert j.fields["port"].n == j.fields["port"].n.Floor as real;
      }
      var origins, checks := Elements(j.fields, "origin_servers"), Elements(j.fields, "healthcheck");
      forall i | 0 <= i < |origins| ensures OriginHasTypes(origins[i]) {
        OriginNeedsTypes(origins[i]);
      }
      forall i | 0 <= i < |checks| ensures RefHasTypes(checks[i]) {
        assert RefElementFits(checks[i]);
      }
    }
  }

  lemma OriginNeedsTypes(j: Json)
    requires OriginFits(j)
    ensures OriginHasTypes(j)
  {
    if j.JObj? {
      forall k | k in j.fields && k in {"public_ip", "public_name", "private_ip", "private_name", "k8s_service", "consul_service"}
        ensures IsObject(j.fields[k]) && (j.fields[k].JObj? ==> KindHasTypes(k, j.fields[k].fields))
      {
        KindNeedsTypes(j, k);
      }
    }
  }

  lemma KindNeedsTypes(j: Json, k: string)
    requires OriginFits(j) && j.JObj? && k in j.fields
    requires k in {"public_ip", "public_name", "private_ip", "private_name", "k8s_service", "consul_service"}
    ensures IsObject(j.fields[k]) && (j.fields[k].JObj? ==> KindHasTypes(k, j.fields[k].fields))
  {
    assert |"public_ip"| == 9 && |"public_name"| == 11 && |"private_ip"| == 10 && |"private_name"| == 12;
    assert |"k8s_service"| == 11 && |"consul_service"| == 14;
    assert "k8s_service"[0] == 'k' && "public_name"[0] == 'p';
  }

  predicate IsListOf(j: Json, p: Json -> bool) {
    j.JNull? || (j.JArr? && forall i | 0 <= i < |j.elems| :: p(j.elems[i]))
  }

  predicate RefHasTypes(j: Json) {
    IsObject(j) && (j.JObj? ==> forall k | k in j.fields && k in {"name", "namespace", "tenant"} :: IsText(j.fields[k]))
  }

  /** Each kind of origin is an object, its text members are text, and its site locator holds references. */
  predicate OriginHasTypes(j: Json) {
    IsObject(j) && (j.JObj? ==>
      forall k | k in j.fields && k in {"public_ip", "public_name", "private_ip", "private_name", "k8s_service", "consul_service"} ::
        IsObject(j.fields[k]) && (j.fields[k].JObj? ==> KindHasTypes(k, j.fields[k].fields)))
  }

  predicate KindHasTypes(kind: string, f: Fields) {
    && (kind in {"public_ip", "private_ip"} && "ip" in f ==> IsText(f["ip"]))
    && (kind in {"public_name", "private_name"} && "dns_name" in f ==> IsText(f["dns_name"]))
    && (kind in {"k8s_service", "consul_service"} && "service_name" in f ==> IsText(f["service_name"]))
    && (kind == "k8s_service" && "service_namespace" in f ==> IsText(f["service_namespace"]))
    && (kind !in {"public_ip", "public_name"} && "site_locator" in f ==> LocatorHasTypes(f["site_locator"]))
  }

  predicate LocatorHasTypes(j: Json) {
    IsObject(j) && (j.JObj? ==> forall k | k in j.fields && k in {"site", "virtual_site"} :: RefHasTypes(j.fields[k]))
  }

  /** Likewise for metadata: texts, maps of texts, and a flag. */
  lemma MetadataNeedsTypes(f: Fields)
    requires MetadataDecodes(f)
    ensures forall k | k in f && k in {"name", "namespace", "description", "resource_version", "uid"} :: IsText(f[k])
    ensures forall k | k in f && k in {"labels", "annotations"} ::
              IsObject(f[k]) && (f[k].JObj? ==> forall l | l in f[k].fields :: IsText(f[k].fields[l]))
    ensures "disable" in f ==> f["disable"].JBool? || f["disable"].JNull?
  {
  }
}
