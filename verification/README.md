# F5 XC Kubernetes operator: a verified model

The operator keeps Kubernetes custom resources and objects in the F5 Distributed
Cloud (XC) API in step. This project models the parts of it where that can go wrong
and proves what they keep, in Dafny 4.11. `dafny verify dfyconfig.toml` checks it.

## What is modelled

- **The reconcile protocol** of `OriginPool` (`Reconciler.dfy`). Every external call
  is a point where the world may change or the process may die, so the
  specification is a resumable machine (`Start`, `AfterXc`, `AfterWrite`). The class
  `OriginPoolReconciler` is the same code in the source's imperative form, and each
  of its methods is proved to hold exactly the machine's conversation with the API
  servers, for every script of answers. `ReconcileAnswers.dfy` says what such a
  conversation is, field by field and with every constant written out: calls, payloads,
  statuses, finalizers, requeues. The other controllers repeat this machine.
- **The system around it** (`Protocol.dfy`). Any number of pools, each with the full
  history of its stored versions, a cache that lags, and one reconcile in flight; one
  XC store; users who edit, delete and re-create; calls that fail before or after they
  took effect; crashes at any point; outside edits of XC objects. Proved about every
  run: leak-freedom (`LeakFreedom.dfy`), that Synced=True for the current generation is
  true (`CurrentStatus.dfy`) and what becomes of reports for older ones
  (`TruthfulStatus.dfy`), convergence with a measure and exactly when it happens,
  quiescence, and that no unfinished reconcile is forgotten (`Convergence.dfy`), and the
  same for deletions (`Deletion.dfy`).
  `Counterexamples.dfy` gives runs that show which assumptions are needed.
- **The API layer.** The retry loop and backoff (`RetryClient.dfy`), the in-repo
  reference server (`FakeServer.dfy`), which objects decode into the client's types
  (`PoolDecoding.dfy`), and the proof that all together are the one-fault-per-call API
  the protocol assumes (`ApiRefinement.dfy`, `XcApi.dfy`).
- **Drift comparison** (`Json.dfy`, `Diff.dfy`): in-place key stripping on raw JSON
  proved against a definition on decoded trees (RFC 8259, sections 1 and 4).
- **Discovery** (`OriginResolver.dfy`, `Discovery.dfy`, `DiscoverIndex.dfy`): the
  resolvers, the incremental index, the watch mappers and their soundness.
- **The payload** (`OriginPoolMapper.dfy`): mapping, JSON encoding with `omitempty`,
  its round trip, and its exactness under the drift comparison; `PayloadDocument.dfy`
  states the document member by member from the fields of the pool.
- **References** (`References.dfy`) and the load balancers' way to their first XC call
  (`LoadBalancers.dfy`), **list responses** (`ListDecoding.dfy`), **limiter sharing** under concurrency
  (`RateLimit.dfy`), and **credential rotation** (`Credentials.dfy`).

## Assumptions of the protocol results

`Rules` and `UserMay` in `Protocol.dfy` state them. Every version of a pool names the
same XC namespace, and different pools keep different XC keys (the Kubernetes
namespace is not part of the key). A cached copy never goes back in time, not even over
a restart. One reconcile runs at a time per pool. A call to XC takes effect before it
returns or never, and a failed call never looks like "not found" (`EveryCallIsServedOnce`
shows it of the retrying client). Users do not touch the operator's finalizer or the
status. Outside parties may edit or delete existing XC objects but not create one under
a pool's key; the truthful-status results exclude outside edits altogether.
Discovery is complete exactly when it has an origin for each discover entry and for
nothing else (`CompleteDiscoveryIsAligned` shows it of the code). `NamespaceEditLeaks`,
`SharedKeyBelies` and `OldCacheLeaks` show that the first three assumptions cannot be
dropped: fixed namespaces, different keys, and a cache that does not go back.

## Where code and documentation differ

The model follows the code.

- `docs/overview.md` says Synced means the current spec matches what is in XC. That
  needs the condition's own generation to be the current one: then it is proved
  (`CurrentReportsAreTrue`). A report for generation g stays in the status while a
  replace for generation g+1 is already applied: `ReportLagsBehindReplace` is a run
  without any failure. `OnlyReplaceBreaksAReport` proves that an applied replace is the
  only step that does this, and `ReportsAreNeverAhead` that XC then holds a later version.
- `docs/overview.md` says an `ObjectRef` namespace selects another Kubernetes
  namespace. The validators always look in the parent's namespace.
- The comments of `NeedsUpdate` speak of whole objects. The controllers pass it the two
  `spec` documents; since no payload member is server-managed the result is the same
  for every payload (`DriftComparisonIsExact`).
- An object in XC that does not decode into the client's types fails every GET, so the
  operator reports CreateFailed, retries after ten seconds and never replaces it; an
  object without a spec, which the reference server never sends, ends every reconcile
  in an error (`UnreadableObjectBlocks`, `ConvergesExactlyWhenReadable`).
  `OutsideEditBlocks` is a run into such a state: somebody writes a `port` that is text.
- A negative retry limit, which `Config.Validate` accepts, sends nothing and is no error
  to `do` (`RetryAccounting`). A GET then fails on the empty body, but a deletion counts
  as done and a create or replace as having returned an empty object
  (`NegativeLimitAnswers`).

## Model

| member | source | states |
|---|---|---|
| LeakFreedom.NoLeak | internal/controller/originpool_controller.go:44-179 | over any interleaving, an XC object under a pool's key exists only while the stored pool carries the finalizer, or after the operator let go of a version with the orphan policy |
| LeakFreedom.GoneMeansGone | internal/controller/originpool_controller.go:156-179 | once a pool that never asked to be orphaned is gone, its XC object is absent |
| LeakFreedom.StepKeeps | internal/controller/originpool_controller.go:44-179 | the invariant behind leak-freedom is kept by every step of every pool, user, cache and outside party |
| LeakFreedom.XcStepKeeps | internal/controller/originpool_controller.go:96-106 | an answered or lost XC call keeps one pool's invariant, and concerns that pool's key only |
| LeakFreedom.WriteStepKeeps | internal/controller/originpool_controller.go:174-178 | a Kubernetes write, landed, refused or unanswered, keeps one pool's invariant |
| CurrentStatus.CurrentReportsAreTrue | internal/controller/originpool_controller.go:235-264 | in every reachable state without outside edits, a live pool with Synced=True for its current generation means XC holds the payload of its current spec, with the origins that a completed discovery of the pool found in that run |
| CurrentStatus.ReportsAreNeverAhead | internal/controller/originpool_controller.go:235-264 | as long as a live pool reports Synced=True for generation g, XC holds the payload of a stored version of generation g or later: a report is at worst behind XC |
| CurrentStatus.StepKeepsSystem | internal/controller/originpool_controller.go:44-264 | the invariant behind it is kept by every step except outside edits: while a current report stands, every version still to be read and the one in flight has the current spec; while any stands, none is older than it |
| CurrentStatus.CurrentOnlyReplaces | internal/controller/originpool_controller.go:96-154 | under such a report a reconcile neither creates nor deletes, and works on the current spec |
| TruthfulStatus.SyncedReportsAreTrue | internal/controller/originpool_controller.go:235-264 | for a report of any generation: XC holds that generation's payload unless a write to XC was applied since the report landed |
| TruthfulStatus.OnlyReplaceBreaksAReport | internal/controller/originpool_controller.go:123-154 | from a true report, a step makes it untrue if and only if it is an applied replace of that pool's object |
| TruthfulStatus.LandedReportIsTrue | internal/controller/originpool_controller.go:108-154 | a success status write that lands always makes the report true again |
| TruthfulStatus.StepKeepsReports | internal/controller/originpool_controller.go:44-264 | the invariant tying reports, reconciles in flight and XC is kept by every step except outside edits |
| Counterexamples.NamespaceEditLeaks | internal/controller/originpool_controller.go:163-168 | editing spec.xcNamespace leaks the object: a faultless run that ends with it, from the initial state |
| Counterexamples.OldCacheLeaks | internal/controller/originpool_controller.go:47-53 | a cache that goes back to an old live version leaks: a faultless run that ends with a re-created object |
| Counterexamples.SharedKeyBelies | internal/controller/originpool_controller.go:161-168 | two pools under one XC key: deleting one deletes the object of the other, which goes on reporting Synced=True for its current generation |
| Counterexamples.ReportLagsBehindReplace | internal/controller/originpool_controller.go:142-150 | a reachable state, nothing having failed, reports Synced=True for generation 1 while XC holds generation 2 |
| Counterexamples.OutsideEditBlocks | internal/xcclient/originpool.go:126-138 | a run with one outside edit, a port as text, into a state from which no script of reconciles converges or changes XC |
| Convergence.ConvergesExactlyWhenReadable | internal/controller/originpool_controller.go:96-154 | a pool with permitted references and complete discovery converges if and only if the object XC holds for it at the start, if any, decodes and has a spec |
| Convergence.Converges | internal/controller/originpool_controller.go:59-154 | from a readable object, with N failing calls, crashes and stale reads in all, at most N+2 reconciles do not end at Synced=True/UpToDate, wherever they fall |
| Convergence.DyingIsLosing | internal/controller/originpool_controller.go:44-264 | a process that dies between any two calls leaves versions and XC as one all of whose remaining calls get lost |
| Convergence.BlockedForEver | internal/xcclient/originpool.go:126-138 | over an object the operator cannot read no reconcile, failing or not, ends up to date or changes XC |
| Convergence.UnreadableObjectBlocks | internal/xcclient/originpool.go:126-138 | without failures a live reconcile ends well iff the object decodes and has a spec; undecodable, it sends one GET, reports Synced=False/CreateFailed and requeues after 10 s; without a spec it ends in an error |
| Convergence.StaleReadsDoNoHarm | internal/controller/originpool_controller.go:47-53 | a reconcile from an outdated copy of the same spec stores no version and never raises the stage, whatever fails in it |
| Convergence.OneReconcileProgresses | internal/controller/originpool_controller.go:59-154 | over a readable object no failure, applied or not, raises the stage; without failures it drops, and from the last stage the reconcile ends up to date |
| Convergence.Quiescent | internal/controller/originpool_controller.go:123-140 | once up to date, a further reconcile sends one GET, changes nothing in XC and stores no new version |
| Convergence.StopsOnlyWhenDone | internal/controller/originpool_controller.go:181-233 | without authentication failures, a reconcile that neither requeues nor stores a version leaves XC holding the payload and the status reporting it |
| Deletion.DeletionConverges | internal/controller/originpool_controller.go:156-179 | with N failing calls, crashes and stale reads in all, at most N reconciles of a deleted pool leave its finalizer in place; after that its XC object is absent unless orphaned, and no other object was touched |
| Deletion.ReconcileAdvances | internal/controller/originpool_controller.go:156-179 | one reconcile of a deleted pool, from any version and with any failures, only ever lets go when the object is absent or to be orphaned; from the latest and without failures it lets go |
| Deletion.DeletionStopsOnlyWhenDone | internal/controller/originpool_controller.go:156-233 | without authentication failures, a reconcile of a deleted pool that neither requeues nor stores a version found the finalizer gone |
| Reconciler.OriginPoolReconciler.Reconcile | internal/controller/originpool_controller.go:44-106 | holds exactly the machine's conversation for the pool read, or ends at once when it is missing or the read fails; sends no GET, POST or PUT unless every reference is permitted |
| Reconciler.OriginPoolReconciler.SyncLive | internal/controller/originpool_controller.go:67-105 | the same from the finalizer check on: discovery, validation, GET |
| Reconciler.OriginPoolReconciler.HandleCreate | internal/controller/originpool_controller.go:108-121 | holds the machine's conversation from the create on |
| Reconciler.OriginPoolReconciler.HandleUpdate | internal/controller/originpool_controller.go:123-154 | holds the machine's conversation from the comparison on |
| Reconciler.OriginPoolReconciler.HandleDeletion | internal/controller/originpool_controller.go:156-179 | holds the machine's conversation for a pool being deleted |
| Reconciler.OriginPoolReconciler.HandleXCError | internal/controller/originpool_controller.go:181-233 | writes the condition and returns the requeue of the error table, ignoring a failed status write |
| Reconciler.PoolObject.SetStatus | internal/controller/originpool_controller.go:235-264 | both conditions with their flags, the observed generations, and the XC identity if there is an object |
| Reconciler.CallsAreGuarded | internal/controller/originpool_controller.go:55-105 | GET, POST and PUT only for a live pool with finalizer, permitted references and complete discovery; DELETE only for a deleted, not orphaned one; always under the pool's own key |
| Reconciler.DiscoveryIsPublished | internal/controller/originpool_controller.go:67-83 | every status write carries the new discovery list, or the old one when there are no discover entries; pending leaves Synced alone |
| Reconciler.CompleteDiscoveryIsAligned | internal/controller/originpool_controller.go:288-327 | discovery is reported complete iff exactly the discover entries have a resolved origin |
| ReconcileAnswers.EveryReconcileAnswers | internal/controller/originpool_controller.go:44-264 | all a reconcile of a stored pool does, for every script of answers: calls in order under the own key, payload, written object or status field by field, and result, in each branch |
| ReconcileAnswers.FirstFailureIsReported | internal/controller/originpool_controller.go:181-233 | the error table: reason, Ready, observed generation, untouched identity and requeue for each error of a first call; no retry after an authentication failure, 60 s, 30 s and 10 s else |
| ReconcileAnswers.SuccessAnswers | internal/controller/originpool_controller.go:235-254 | a success report sets Ready and Synced True for its reason and generation, takes the three identity fields from the answered object, and changes nothing else |
| ReconcileAnswers.OtherFinalizersAreKept | internal/controller/originpool_controller.go:59-65 | an object write changes the operator's own finalizer only: there exactly while the pool is not being deleted |
| ReconcileAnswers.DiscoveredOriginsAreSent | internal/controller/originpool_controller.go:67-83 | every create or replace carries at each discover entry's position the address found for the object it names, and elsewhere the origin as written |
| ReconcileAnswers.NothingIsSentWhilePending | internal/controller/originpool_controller.go:74-82 | while the object of any entry, at any position, does not resolve, no GET, POST or PUT is sent |
| ReconcileAnswers.PermittedByFields | internal/controller/xcnamespace_validation.go:62-76 | references are permitted iff every readable health check of the pool's Kubernetes namespace is in no, its own or the shared XC namespace |
| ApiRefinement.EveryCallIsServedOnce | internal/xcclient/originpool.go:114-155 | a retried call against the reference server, its answer decoded, is one API call with at most one fault, never a wrong "not found" |
| ApiRefinement.InjectedStatusIsSeen | internal/xcclient/client.go:104-139 | a call whose operation the server answers with a status gives the reconciler the error of that status, after one request, or all for 429, without effect |
| ApiRefinement.NegativeLimitAnswers | internal/xcclient/client.go:109-139 | with a negative limit nothing is sent; a GET fails, a deletion counts as done, a create or replace returns an empty object |
| ApiRefinement.ServedExactlyWhen | internal/xcclient/client.go:104-139 | a call is one served API call if and only if the limit is not negative, it is a GET, or it is cancelled before it starts |
| ApiRefinement.DispatchIsApply | internal/xcclient/testutil/fakeserver.go:193-362 | the server's CRUD handlers, read through the client's types or not decodable by them, are the API's four calls |
| RetryClient.Client.Do | internal/xcclient/client.go:92-139 | server state, result and the three counters after a call, for any server, network and cancellation |
| RetryClient.Client.DoOnce | internal/xcclient/client.go:141-199 | one round trip: effect on the server and typed outcome, an answer that does not decode being an error |
| RetryClient.AttemptByStatus | internal/xcclient/errors.go:41-64 | each error class means exactly its statuses: 404, 401 or 403, 409, 429, 500 and above, any other |
| RetryClient.Client.BackoffDelay | internal/xcclient/client.go:201-212 | the doubled base plus the draw, in wrapping int64 arithmetic |
| RetryClient.Client.SetBaseDelay | internal/xcclient/client.go:72-77 | base and half of it, toward zero, as jitter |
| RetryClient.RetryAccounting | internal/xcclient/client.go:104-138 | at most maxRetries+1 requests, only 429 is followed by another, exhaustion means all were 429; a negative limit sends nothing and reports no error |
| RetryClient.AtMostOnce | internal/xcclient/client.go:109-139 | whatever is injected, lost or cancelled, the operation takes effect at most once |
| RetryClient.ExactlyOnce | internal/xcclient/client.go:109-139 | against m injected 429s: success iff m <= maxRetries, min(m, maxRetries)+1 requests, one effect or none |
| RetryClient.DelaysIncrease | internal/xcclient/client.go:201-212 | with base >= 1 and jitter at most half of it, delays strictly increase whatever is drawn |
| RetryClient.TotalDelayBounds | internal/xcclient/client.go:201-212 | n retries sleep between base(2^n-1) and that plus n jitter caps |
| RetryClient.DefaultDelayFits | internal/xcclient/client.go:62-63 | the default delay n does not overflow int64 iff n <= 34 |
| FakeServer.FakeXCServer.Handle | internal/xcclient/testutil/fakeserver.go:138-210 | a bad path or unreadable body is turned down unlogged; else request log, injected error and countdown, or dispatch |
| FakeServer.FakeXCServer.HandleCreate | internal/xcclient/testutil/fakeserver.go:212-265 | stores under the name in URL or body, 409 if present, 400 for a spec that is no map |
| FakeServer.FakeXCServer.HandleReplace | internal/xcclient/testutil/fakeserver.go:304-344 | replaces verbatim, 404 if absent, 400 for a spec that is no map |
| FakeServer.FakeXCServer.HandleDelete | internal/xcclient/testutil/fakeserver.go:346-362 | removes, 404 if absent |
| FakeServer.FakeXCServer.InjectError | internal/xcclient/testutil/fakeserver.go:83-98 | zero times means forever |
| FakeServer.StoredAndListed | internal/xcclient/testutil/fakeserver.go:245-302 | name, namespace, uid, version and spec of a stored object; a list holds exactly its resource and namespace |
| Diff.NeedsUpdate | internal/xcclient/diff.go:25-56 | an error iff a document is missing or no map, else whether the canonical decoded trees differ |
| Diff.StripServerManaged | internal/xcclient/diff.go:58-63 | in-place deletion, in any order, removes exactly the five names |
| Diff.StripMetaFields | internal/xcclient/diff.go:65-87 | rewrites only an existing metadata object, without uid and resource_version |
| Diff.UnmarshalRaw | internal/xcclient/diff.go:89-97 | one level of decoding loses nothing; null gives the nil map |
| Diff.Normalise | internal/xcclient/diff.go:99-112 | re-encoding in any member order decodes to the same tree |
| Diff.ComparesEqualExactlyWhen | internal/xcclient/diff.go:8-56 | no update iff both agree under every name but the five, metadata compared without its two |
| Diff.IgnoredNames | internal/xcclient/diff.go:8-23 | changing one member is invisible iff it is one of the five names, or metadata apart from `uid` and `resource_version` |
| Diff.ComparableDocuments | internal/xcclient/diff.go:30-38 | an error iff a document is missing or neither object nor null |
| Diff.StripsAreIdempotentAndCommute | internal/xcclient/diff.go:40-44 | both strips are idempotent and commute |
| Diff.OrderNeverMatters | internal/xcclient/diff.go:99-112 | member order at any depth never changes a comparison |
| Diff.NoUpdateIsAnEquivalence | internal/xcclient/diff.go:30-56 | reflexive, symmetric, transitive on map documents; null equals only null |
| Json.DecodeIsOrderBlind | internal/xcclient/diff.go:99-112 | documents without repeated names decode equally iff they differ at most in member order |
| Json.LastDuplicateWins | internal/xcclient/diff.go:89-97 | of members under one name the last one counts |
| PoolDecoding.SpecNeedsTypes | internal/xcclient/originpool.go:14-86 | what decodes has text, int64 and lists where the client's types have them, at every depth |
| OriginPoolMapper.MapOriginPoolSpec | internal/controller/originpool_mapper.go:56-82 | one wire origin per spec origin in order, resolved where resolved, and the pool's own fields |
| PayloadDocument.PayloadIsSent | internal/controller/originpool_mapper.go:56-191 | the document sent, member by member from the pool's fields: origins in order, own port, networks with the inside one winning, TLS block |
| OriginPoolMapper.OneOfCarriesOver | internal/controller/originpool_mapper.go:84-132 | for aligned discovery each one-choice origin becomes a one-choice wire origin at the same position |
| OriginPoolMapper.DiscoveredPortsAreNotSent | internal/controller/originpool_mapper.go:84-92 | discovered ports never influence the payload |
| OriginPoolMapper.OriginRoundTrip | internal/xcclient/originpool.go:63-72 | an encoded origin server decodes to itself |
| OriginPoolMapper.SpecRoundTrip | internal/xcclient/originpool.go:78-86 | an encoded spec decodes, and to itself, in spite of omitempty |
| OriginPoolMapper.PayloadDecodes | internal/xcclient/originpool.go:114-148 | whatever the pool and its origins, what the operator sends can be read back by the client |
| OriginPoolMapper.DriftComparisonIsExact | internal/controller/originpool_controller.go:123-132 | the comparison of two payloads says "update" iff the specs differ |
| OriginPoolMapper.TlsIsExact | internal/controller/originpool_mapper.go:148-165 | two TLS blocks encode alike iff they are equal |
| OriginPoolMapper.TlsEditsAreSeen | internal/controller/originpool_controller.go:123-132 | an edit of the TLS block alone makes the comparison say "update" iff it changes anything |
| OriginResolver.IsNodeReady | internal/controller/origin_resolver.go:121-128 | true iff some condition is Ready=True |
| OriginResolver.ResolveNodePort | internal/controller/origin_resolver.go:73-96 | the early-exit loops compute the first ready node's first external address |
| OriginResolver.NodePortTakesTheFirst | internal/controller/origin_resolver.go:73-96 | first usable (node, address) in lexicographic order, with the node port; pending iff none |
| OriginResolver.NodePortIsStable | internal/controller/origin_resolver.go:73-96 | appended nodes keep a resolved answer; nodes not ready may be inserted anywhere |
| OriginResolver.ResolveRoute | internal/controller/origin_resolver.go:208-242 | the early-exit loops decide on the first admitted ingress |
| OriginResolver.RouteIsDecidedByTheFirstAdmitted | internal/controller/origin_resolver.go:216-236 | the first admitted ingress decides host, port and pending; a later one never rescues its empty host |
| OriginResolver.ResolveDiscover | internal/controller/origin_resolver.go:162-171 | an override replaces the address with its type, or the port, and nothing else; never whether an origin is pending |
| OriginResolver.ServiceByItsFields | internal/controller/origin_resolver.go:28-119 | address, port and type for each kind of service, in the order of precedence |
| OriginResolver.IngressAndGatewayByTheirFields | internal/controller/origin_resolver.go:130-206 | first entry's IP or else hostname, 443 with TLS and 80 without; first gateway address and listener |
| OriginResolver.UnadmittedRouteIsPending | internal/controller/origin_resolver.go:208-242 | without an admitted ingress a route stays pending |
| Discovery.ResolveEntry | internal/controller/originpool_controller.go:298-321 | origin and published status come from the object of the entry's kind and name in the namespace it names, or else the pool's, with its overrides |
| Discovery.EntryDependsOnItsObject | internal/controller/originpool_controller.go:298-305 | two clusters with the same nodes and the same such object resolve the entry alike |
| Discovery.ResolveAllOrigins | internal/controller/originpool_controller.go:288-327 | one origin per position, each discover entry's from its own object; published entries in order; complete iff every discover entry has one |
| Discovery.PublishedInOrder | internal/controller/originpool_controller.go:288-327 | the published list is the order-preserving image of the discover entries; complete iff none is pending |
| Discovery.ObjectWatchIsSound | internal/controller/originpool_controller.go:329-370 | if changing one object changes a pool's resolution, the pool refers to that object |
| Discovery.NodeWatchIsSound | internal/controller/originpool_controller.go:333-344 | if changing nodes changes a pool's resolution, the pool has a Service entry |
| Discovery.LookupKeyIsInjective | internal/controller/originpool_controller.go:430-433 | a real object's key matches one reference only, whatever text users put into theirs |
| Discovery.DiscoverIndexFunc | internal/controller/originpool_controller.go:374-391 | the keys are exactly kind, namespace named or else the pool's, and name of the discover references |
| Discovery.RefersByItsFields | internal/controller/originpool_controller.go:430-443 | what the scan compares with: a pool refers to an object iff an entry names its kind and name, and its namespace or none if it is the pool's |
| Discovery.MapNodeToOriginPools | internal/controller/originpool_controller.go:409-428 | exactly the pools with an entry of kind "Service", each once; none when listing fails |
| DiscoverIndex.PoolIndex.Upsert | internal/controller/originpool_controller.go:450-453 | adding or updating a pool keeps the index equal to a scan |
| DiscoverIndex.PoolIndex.Delete | internal/controller/originpool_controller.go:450-453 | deleting a pool keeps the index equal to a scan |
| DiscoverIndex.PoolIndex.MapResourceToOriginPools | internal/controller/originpool_controller.go:430-443 | the lookup yields exactly the stored pools that refer to the changed object; none when listing fails |
| DiscoverIndex.ChangedObjectEnqueuesPool | internal/controller/originpool_controller.go:430-443 | when one object changes and a stored pool then resolves differently, that pool is in the lookup's result |
| DiscoverIndex.ChangedNodesEnqueuePool | internal/controller/originpool_controller.go:409-428 | when nodes change and a listed pool then resolves differently, the node mapper enqueues it |
| References.ValidatorsFollowTheRule | internal/controller/xcnamespace_validation.go:31-76 | each validator is the documented rule: equal namespace, or shared for firewalls and health checks but not pools |
| References.ValidateTcpLoadBalancer | internal/controller/tcplb_controller.go:57-62 | nil iff every pool reference is permitted, else the first offender |
| References.ValidateHttpLoadBalancer | internal/controller/httplb_controller.go:57-67 | the same over route pools, then the firewall |
| References.HttpPermittedByFields | internal/controller/xcnamespace_validation.go:31-60 | pools must be in no or the own XC namespace; a firewall may also be in `shared` |
| References.ValidateHealthChecks | internal/controller/originpool_controller.go:87-92 | the same over health checks |
| LoadBalancers.ReconcileTcpLoadBalancer | internal/controller/tcplb_controller.go:32-66 | XC is asked, under the load balancer's own key, iff it is live with its finalizer and every reference is permitted; else the first offender is reported |
| LoadBalancers.ReconcileHttpLoadBalancer | internal/controller/httplb_controller.go:32-71 | the same over route pools and firewall |
| ListDecoding.UnmarshalList | internal/xcclient/helpers.go:28-46 | decodes iff the document is a list and every normalised item decodes; keeps length and order |
| ListDecoding.NormalizingIsGentle | internal/xcclient/helpers.go:48-75 | idempotent; changes `metadata` only, and only of flat items, where it keeps name and namespace |
| ListDecoding.RewrittenByItsFields | internal/xcclient/helpers.go:48-75 | an item is rewritten iff it has a name as text, no namespace of another type and no metadata; then its metadata holds name and namespace only |
| ListDecoding.ItemsByTheirField | internal/xcclient/helpers.go:28-34 | the items are those of the member `items`, none when it is missing or null, an error when it is anything else |
| RateLimit.OneLimiterPerEndpoint | internal/xcclient/ratelimit.go:31-46 | in every interleaving, finished calls share a limiter iff they share the endpoint, built from the override or the defaults |
| RateLimit.PublishedForever | internal/xcclient/ratelimit.go:43-45 | a published limiter is never replaced |
| RateLimit.EndpointRateLimiter.GetLimiter | internal/xcclient/ratelimit.go:31-46 | the sequential code is the machine's steps of one caller |
| Credentials.CredentialWatcher.Reconcile | cmd/main.go:289-331 | files, current configuration and served client after one Secret event, under any failures |
| Credentials.ConfigFromSecret | internal/credentials/loader.go:11-54 | accepts exactly a token alone or a certificate with its password; configuration, temp file and its clean-up |
| Credentials.BuildClientSet | cmd/main.go:249-275 | start-up, which leaves the P12 file behind when building the client fails |
| Credentials.ClientSet.Swap | internal/xcclientset/clientset.go:29-33 | replaces the client |
| Credentials.StepConserves | cmd/main.go:289-331 | an event leaves behind exactly the files whose deletion failed in it |
| Credentials.BuildsByItsFields | cmd/main.go:289-331 | which Secrets and failures make an event build a client |
| Credentials.FilesAreConserved | cmd/main.go:289-331 | over any run the P12 files are exactly the current configuration's iff no deletion ever failed |
| Credentials.LastBuiltIsServed | cmd/main.go:289-331 | the served client is that of the last Secret that built, its certificate file intact |

## Left out

- HTTP, TLS, PKCS#12 decoding, metrics registration, logging, flags and manager set-up: library plumbing.
- JSON text and its decoder: documents are trees of written members; struct decoding matches names exactly.
- Timestamps, condition messages and transition times, and the order of the condition list.
- Token-bucket timing: only the identity and parameters of a limiter.
- URL building and parsing: a request carries resource, namespace and name as separate parts.
- The mappers of the other kinds: long and easy.
- OriginPoolMapper.DriftComparisonIsExact: ports beyond 2^53, which a decoded JSON number does not hold exactly.
- The other controllers: copies of the same machine; of the two load balancers, everything up to the first XC call is modelled.
- `net.ParseIP` is an arbitrary predicate, and the real XC server's defaulting is unknown: the server stores specs verbatim.
- Reconciler.OriginPoolReconciler.Reconcile: compares decoded documents with `Diff.CompareStored`; that the raw procedure computes it is `Diff.NeedsUpdate`.
- Reconciler.OriginPoolReconciler.Reconcile: the cluster is read as one snapshot; in the interleaving model validation outcomes, and discovery results that are aligned when complete, are arbitrary at every read instead.
- Convergence.Converges: valid references, complete discovery and no writer but the operator; a lasting pending discovery or a forbidden reference is retried for ever and never converges.
- RateLimit.EndpointRateLimiter.GetLimiter: one caller without interference; interleavings are the state machine's.
