/**
 The part of `Reconcile` in internal/controller/httplb_controller.go and
 tcplb_controller.go that decides whether XC is called at all. From there on the two
 repeat the origin pool's machine.
 */
module LoadBalancers {
  import opened Wrappers
  import opened OriginPoolTypes
  import opened Discovery
  import opened References

  /** What both read of themselves before the first call; a TCP load balancer has no firewall. */
  datatype LoadBalancer = LoadBalancer(
    id: Name, xcNamespace: string, deleting: bool, hasFinalizer: bool,
    pools: seq<ObjectRef>, firewall: Option<ObjectRef>)

  datatype Fetched = Found(lb: LoadBalancer) | Missing | ReadFailed

  /** `Report`: the validation error goes to the error table. `AskXc`: GET under this XC namespace and name. */
  datatype Step =
    | Stop(failed: bool)
    | HandleDeletion
    | AddFinalizer
    | Report(error: NamespaceError)
    | AskXc(namespace: string, name: string)

  /** XC is asked exactly for a live load balancer with its finalizer whose references are all permitted, under its own key. */
  predicate Decides(fetched: Fetched, view: RefView, refs: seq<Reference>, step: Step) {
    match fetched
    case ReadFailed => step == Stop(true)
    case Missing => step == Stop(false)
    case Found(lb) =>
      && (step.HandleDeletion? <==> lb.deleting)
      && (step.AddFinalizer? <==> !lb.deleting && !lb.hasFinalizer)
      && (step.AskXc? <==> !lb.deleting && lb.hasFinalizer && AllPermitted(view, Parent(lb.id.namespace, lb.xcNamespace), refs))
      && (step.AskXc? ==> step == AskXc(lb.xcNamespace, lb.id.name))
      && (step.Report? ==> IsVerdict(view, Parent(lb.id.namespace, lb.xcNamespace), refs, Some(step.error)))
      && !step.Stop?
  }

  method ReconcileTcpLoadBalancer(fetched: Fetched, view: RefView) returns (step: Step)
    ensures Decides(fetched, view, if fetched.Found? then PoolRefs(fetched.lb.pools) else [], step)
  {
    if !fetched.Found? {
      return Stop(fetched.ReadFailed?);
    }
    var lb := fetched.lb;
    if lb.deleting {
      return HandleDeletion;
    }
    if !lb.hasFinalizer {
      return AddFinalizer;
    }
    var verdict := ValidateTcpLoadBalancer(view, Parent(lb.id.namespace, lb.xcNamespace), lb.pools);
    OffenderIsNotPermitted(view, Parent(lb.id.namespace, lb.xcNamespace), PoolRefs(lb.pools), verdict);
    step := if verdict.Some? then Report(verdict.value) else AskXc(lb.xcNamespace, lb.id.name);
  }

  method ReconcileHttpLoadBalancer(fetched: Fetched, view: RefView) returns (step: Step)
    ensures Decides(fetched, view, if fetched.Found? then HttpRefs(fetched.lb.pools, fetched.lb.firewall) else [], step)
  {
    if !fetched.Found? {
      return Stop(fetched.ReadFailed?);
    }
    var lb := fetched.lb;
    if lb.deleting {
      return HandleDeletion;
    }
    if !lb.hasFinalizer {
      return AddFinalizer;
    }
    var verdict := ValidateHttpLoadBalancer(view, Parent(lb.id.namespace, lb.xcNamespace), lb.pools, lb.firewall);
    OffenderIsNotPermitted(view, Parent(lb.id.namespace, lb.xcNamespace), HttpRefs(lb.pools, lb.firewall), verdict);
    step := if verdict.Some? then Report(verdict.value) else AskXc(lb.xcNamespace, lb.id.name);
  }

  lemma OffenderIsNotPermitted(view: RefView, parent: Parent, refs: seq<Reference>, verdict: Option<NamespaceError>)
    requires IsVerdict(view, parent, refs, verdict)
    ensures verdict.None? <==> AllPermitted(view, parent, refs)
  {
  }
}
