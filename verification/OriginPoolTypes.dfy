/** The OriginPool custom resource (api/v1alpha1) and the payload sent to the XC API (internal/xcclient/originpool.go). */
module OriginPoolTypes {
  import opened Wrappers
  import opened Json

  // ----- Custom resource -----

  const MAX_SAFE := 0x20_0000_0000_0000

  /** An integer that a JSON number decoded to a float64 holds exactly. */
  type SafeInt = i: int | -MAX_SAFE <= i <= MAX_SAFE

  datatype ObjectRef = ObjectRef(name: string, namespace: string, tenant: string)

  datatype ResourceRef = ResourceRef(kind: string, name: string, namespace: string)

  datatype Discover = Discover(resource: ResourceRef, addressOverride: string, portOverride: Option<nat>)

  /** `site`/`virtualSite` and the inside/outside network choice shared by four origin kinds. */
  datatype Placement = Placement(site: Option<ObjectRef>, virtualSite: Option<ObjectRef>, inside: bool, outside: bool)

  datatype Private = Private(target: string, placement: Placement)

  datatype K8sService = K8sService(name: string, namespace: string, placement: Placement)

  datatype OriginServer = OriginServer(
    publicIP: Option<string>,
    publicName: Option<string>,
    privateIP: Option<Private>,
    privateName: Option<Private>,
    k8sService: Option<K8sService>,
    consulService: Option<Private>,
    discover: Option<Discover>)

  /** `OriginPoolTLS`: the markers are empty objects, present or not; `customSecurity` is a list of cipher suites. */
  datatype PoolTls = PoolTls(
    defaultSecurity: bool,
    lowSecurity: bool,
    mediumSecurity: bool,
    customSecurity: Option<seq<string>>,
    sni: string,
    volterraTrustedCA: bool,
    trustedCAURL: string,
    disableSNI: bool,
    useServerVerification: bool,
    skipServerVerification: bool,
    noMTLS: bool)

  datatype OriginPoolSpec = OriginPoolSpec(
    xcNamespace: string,
    originServers: seq<OriginServer>,
    port: SafeInt,
    loadBalancerAlgorithm: string,
    healthChecks: seq<ObjectRef>,
    useTLS: Option<PoolTls>,
    noTLS: bool)

  datatype AddressType = IP | FQDN | Unset

  datatype ResolvedOrigin = ResolvedOrigin(address: string, port: nat, addressType: AddressType, pending: bool)

  /** One entry of `status.discoveredOrigins`. */
  datatype DiscoveredOrigin = DiscoveredOrigin(
    resource: ResourceRef, address: string, port: nat, addressType: AddressType, resolved: bool)

  /** What `resolveAllOrigins` returns; `origins` is empty when nothing is to be discovered. */
  datatype DiscoveryResult = DiscoveryResult(origins: seq<Option<ResolvedOrigin>>, discovered: seq<DiscoveredOrigin>, allResolved: bool)

  predicate HasDiscover(spec: OriginPoolSpec) {
    exists i | 0 <= i < |spec.originServers| :: spec.originServers[i].discover.Some?
  }

  // ----- Wire payload -----

  datatype SiteLocator = SiteLocator(site: Option<ObjectRef>, virtualSite: Option<ObjectRef>)

  datatype WirePlacement = WirePlacement(locator: Option<SiteLocator>, inside: bool, outside: bool)

  datatype WirePrivate = WirePrivate(target: string, placement: WirePlacement)

  datatype WireK8sService = WireK8sService(name: string, namespace: string, placement: WirePlacement)

  datatype WireOrigin = WireOrigin(
    publicIP: Option<string>,
    publicName: Option<string>,
    privateIP: Option<WirePrivate>,
    privateName: Option<WirePrivate>,
    k8sService: Option<WireK8sService>,
    consulService: Option<WirePrivate>)

  datatype WireSpec = WireSpec(
    origins: seq<WireOrigin>,
    port: int,
    useTLS: Option<Json>,
    noTLS: bool,
    algorithm: string,
    healthChecks: seq<ObjectRef>)
}
