/**
 The cross-namespace checks of internal/controller/xcnamespace_validation.go and
 the loops that run them in front of the HTTPLoadBalancer, TCPLoadBalancer and
 OriginPool state machines. A referenced object is always looked up in the
 parent's Kubernetes namespace.
 */
module References {
  import opened Wrappers
  import opened OriginPoolTypes
  import opened Discovery

  datatype RefKind = PoolRef | FirewallRef | HealthCheckRef

  datatype Reference = Reference(kind: RefKind, name: string)

  /** `xcNamespace` of every readable custom resource of the three referenced kinds. */
  datatype RefView = RefView(pools: map<Name, string>, firewalls: map<Name, string>, healthChecks: map<Name, string>)

  datatype Parent = Parent(namespace: string, xcNamespace: string)

  datatype NamespaceError = NamespaceError(parentXcNamespace: string, reference: Reference, refXcNamespace: string)

  const SHARED := "shared"

  function ValidateOriginPool(view: RefView, parent: Parent, name: string): Option<NamespaceError> {
    var key := Name(parent.namespace, name);
    if key !in view.pools then None
    else
      var xcns := view.pools[key];
      if xcns != "" && xcns != parent.xcNamespace
      then Some(NamespaceError(parent.xcNamespace, Reference(PoolRef, name), xcns))
      else None
  }

  function ValidateAppFirewall(view: RefView, parent: Parent, name: string): Option<NamespaceError> {
    var key := Name(parent.namespace, name);
    if key !in view.firewalls then None
    else
      var xcns := view.firewalls[key];
      if xcns != "" && xcns != parent.xcNamespace && xcns != SHARED
      then Some(NamespaceError(parent.xcNamespace, Reference(FirewallRef, name), xcns))
      else None
  }

  function ValidateHealthCheck(view: RefView, parent: Parent, name: string): Option<NamespaceError> {
    var key := Name(parent.namespace, name);
    if key !in view.healthChecks then None
    else
      var xcns := view.healthChecks[key];
      if xcns != "" && xcns != parent.xcNamespace && xcns != SHARED
      then Some(NamespaceError(parent.xcNamespace, Reference(HealthCheckRef, name), xcns))
      else None
  }

  // ----- Reference definition -----

  function CopiesOf(view: RefView, kind: RefKind): map<Name, string> {
    match kind
    case PoolRef => view.pools
    case FirewallRef => view.firewalls
    case HealthCheckRef => view.healthChecks
  }

  /** The rule of the documentation: same XC namespace, or `shared` for kinds that may live there, which pools may not. */
  predicate Permitted(view: RefView, parent: Parent, r: Reference) {
    var copies := CopiesOf(view, r.kind);
    var key := Name(parent.namespace, r.name);
    key in copies ==> copies[key] in {"", parent.xcNamespace} || (!r.kind.PoolRef? && copies[key] == SHARED)
  }

  predicate AllPermitted(view: RefView, parent: Parent, refs: seq<Reference>) {
    forall i | 0 <= i < |refs| :: Permitted(view, parent, refs[i])
  }

  /** What the validation loop yields: nothing iff all is permitted, else the first offender as the cluster shows it. */
  predicate IsVerdict(view: RefView, parent: Parent, refs: seq<Reference>, verdict: Option<NamespaceError>) {
    match verdict
    case None => AllPermitted(view, parent, refs)
    case Some(e) =>
      exists i | 0 <= i < |refs| ::
        && AllPermitted(view, parent, refs[..i])
        && !Permitted(view, parent, refs[i])
        && e == NamespaceError(parent.xcNamespace, refs[i], CopiesOf(view, refs[i].kind)[Name(parent.namespace, refs[i].name)])
  }

  /** Each validator is the rule for its kind. */
  lemma ValidatorsFollowTheRule(view: RefView, parent: Parent, r: Reference)
    ensures r.kind.PoolRef? ==> IsVerdict(view, parent, [r], ValidateOriginPool(view, parent, r.name))
    ensures r.kind.FirewallRef? ==> IsVerdict(view, parent, [r], ValidateAppFirewall(view, parent, r.name))
    ensures r.kind.HealthCheckRef? ==> IsVerdict(view, parent, [r], ValidateHealthCheck(view, parent, r.name))
  {
    assert [r][0] == r && [r][..0] == [];
  }

  lemma VerdictExtends(view: RefView, parent: Parent, before: seq<Reference>, r: Reference, after: seq<Reference>, verdict: Option<NamespaceError>)
    requires AllPermitted(view, parent, before)
    requires IsVerdict(view, parent, [r], verdict)
    ensures verdict.Some? ==> IsVerdict(view, parent, before + [r] + after, verdict)
    ensures verdict.None? ==> AllPermitted(view, parent, before + [r])
  {
    var all := before + [r] + after;
    assert all[|before|] == r && all[..|before|] == before;
    assert [r][0] == r;
  }

  // ----- The loops -----

  function PoolRefs(pools: seq<ObjectRef>): seq<Reference> {
    seq(|pools|, i requires 0 <= i < |pools| => Reference(PoolRef, pools[i].name))
  }

  function HealthCheckRefs(checks: seq<ObjectRef>): seq<Reference> {
    seq(|checks|, i requires 0 <= i < |checks| => Reference(HealthCheckRef, checks[i].name))
  }

  function HttpRefs(routePools: seq<ObjectRef>, firewall: Option<ObjectRef>): seq<Reference> {
    PoolRefs(routePools) + if firewall.Some? then [Reference(FirewallRef, firewall.value.name)] else []
  }

  method ValidatePools(view: RefView, parent: Parent, pools: seq<ObjectRef>) returns (verdict: Option<NamespaceError>)
    ensures IsVerdict(view, parent, PoolRefs(pools), verdict)
  {
    var refs := PoolRefs(pools);
    for i := 0 to |pools|
      invariant AllPermitted(view, parent, refs[..i])
    {
      verdict := ValidateOriginPool(view, parent, pools[i].name);
      ValidatorsFollowTheRule(view, parent, refs[i]);
      VerdictExtends(view, parent, refs[..i], refs[i], refs[i + 1..], verdict);
      assert refs == refs[..i] + [refs[i]] + refs[i + 1..];
      assert refs[..i + 1] == refs[..i] + [refs[i]];
      if verdict.Some? {
        return;
      }
    }
    assert refs[..|pools|] == refs;
    return None;
  }

  /** TCPLoadBalancer: one loop over its origin pools. */
  method ValidateTcpLoadBalancer(view: RefView, parent: Parent, originPools: seq<ObjectRef>) returns (verdict: Option<NamespaceError>)
    ensures IsVerdict(view, parent, PoolRefs(originPools), verdict)
  {
    verdict := ValidatePools(view, parent, originPools);
  }

  /** HTTPLoadBalancer: its route pools in order, then the application firewall. */
  method ValidateHttpLoadBalancer(view: RefView, parent: Parent, routePools: seq<ObjectRef>, firewall: Option<ObjectRef>)
    returns (verdict: Option<NamespaceError>)
    ensures IsVerdict(view, parent, HttpRefs(routePools, firewall), verdict)
  {
    verdict := ValidatePools(view, parent, routePools);
    var pools := PoolRefs(routePools);
    if verdict.Some? {
      var i :| 0 <= i < |pools| && AllPermitted(view, parent, pools[..i]) && !Permitted(view, parent, pools[i])
        && verdict.value == NamespaceError(parent.xcNamespace, pools[i], CopiesOf(view, pools[i].kind)[Name(parent.namespace, pools[i].name)]);
      assert HttpRefs(routePools, firewall)[..i] == pools[..i];
      assert HttpRefs(routePools, firewall)[i] == pools[i];
      return;
    }
    if firewall.Some? {
      verdict := ValidateAppFirewall(view, parent, firewall.value.name);
      var r := Reference(FirewallRef, firewall.value.name);
      ValidatorsFollowTheRule(view, parent, r);
      VerdictExtends(view, parent, pools, r, [], verdict);
      assert HttpRefs(routePools, firewall) == pools + [r] + [];
    } else {
      assert HttpRefs(routePools, firewall) == pools;
    }
  }

  /** OriginPool: one loop over its health checks. */
  method ValidateHealthChecks(view: RefView, parent: Parent, checks: seq<ObjectRef>) returns (verdict: Option<NamespaceError>)
    ensures IsVerdict(view, parent, HealthCheckRefs(checks), verdict)
  {
    var refs := HealthCheckRefs(checks);
    for i := 0 to |checks|
      invariant AllPermitted(view, parent, refs[..i])
    {
      verdict := ValidateHealthCheck(view, parent, checks[i].name);
      ValidatorsFollowTheRule(view, parent, refs[i]);
      VerdictExtends(view, parent, refs[..i], refs[i], refs[i + 1..], verdict);
      assert refs == refs[..i] + [refs[i]] + refs[i + 1..];
      assert refs[..i + 1] == refs[..i] + [refs[i]];
      if verdict.Some? {
        return;
      }
    }
    assert refs[..|checks|] == refs;
    return None;
  }

  /** A reference is permitted by what the cluster shows under its name in the parent's Kubernetes namespace. */
  predicate IsPermitted(copies: map<Name, string>, key: Name, allowed: set<string>) {
    key in copies ==> copies[key] in allowed
  }

  /** What must hold for a load balancer's references to be permitted: for every pool and for the firewall. */
  lemma HttpPermittedByFields(view: RefView, namespace: string, xcNamespace: string, pools: seq<ObjectRef>, firewall: Option<ObjectRef>)
    ensures AllPermitted(view, Parent(namespace, xcNamespace), HttpRefs(pools, firewall)) <==>
              && (forall i | 0 <= i < |pools| :: IsPermitted(view.pools, Name(namespace, pools[i].name), {"", xcNamespace}))
              && (firewall.Some? ==> IsPermitted(view.firewalls, Name(namespace, firewall.value.name), {"", xcNamespace, "shared"}))
  {
    var all, parent := HttpRefs(pools, firewall), Parent(namespace, xcNamespace);
    PoolsPermittedByFields(view, namespace, xcNamespace, pools);
    assert PoolRefs(pools) == all[..|pools|];
    if firewall.Some? {
      assert all[|pools|] == Reference(FirewallRef, firewall.value.name);
    }
    assert AllPermitted(view, parent, all) <==>
      AllPermitted(view, parent, PoolRefs(pools)) && (firewall.Some? ==> Permitted(view, parent, Reference(FirewallRef, firewall.value.name)))
    by {
      assert forall i | 0 <= i < |pools| :: all[i] == PoolRefs(pools)[i];
    }
  }

  lemma PoolsPermittedByFields(view: RefView, namespace: string, xcNamespace: string, pools: seq<ObjectRef>)
    ensures AllPermitted(view, Parent(namespace, xcNamespace), PoolRefs(pools)) <==>
              forall i | 0 <= i < |pools| :: IsPermitted(view.pools, Name(namespace, pools[i].name), {"", xcNamespace})
  {
    var refs := PoolRefs(pools);
    forall i | 0 <= i < |pools|
      ensures Permitted(view, Parent(namespace, xcNamespace), refs[i])
         <==> IsPermitted(view.pools, Name(namespace, pools[i].name), {"", xcNamespace})
    {
    }
  }
}
