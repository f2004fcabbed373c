/**
 `OriginPoolReconciler` (internal/controller/originpool_controller.go). Every
 external call it makes is a place where the world may change or the process may
 die, so its specification is a resumable machine: `Start` runs up to the first
 call, `AfterXc` and `AfterWrite` from one answer to the next call. The class below is the same code
 in the source's imperative form, proved to hold exactly these conversations.
 */
module Reconciler {
  import opened Wrappers
  import opened XcApi
  import opened OriginPoolTypes
  import opened Discovery
  import opened References
  import Mapper = OriginPoolMapper
  import Diff

  // ----- The custom resource -----

  datatype Reason =
    | CreateSucceeded | UpdateSucceeded | UpToDate
    | CreateFailed | UpdateFailed | DeleteFailed
    | AuthFailure | RateLimited | ServerErrorSeen | Conflict
    | DiscoveryPending

  datatype Condition = Condition(status: bool, reason: Reason, observedGeneration: nat)

  /** Conditions are upserted by type, of which there are two. Messages and transition times are not modelled. */
  datatype Status = Status(
    ready: Option<Condition>,
    synced: Option<Condition>,
    observedGeneration: nat,
    xcResourceVersion: string,
    xcUID: string,
    xcNamespace: string,
    discovered: seq<DiscoveredOrigin>)

  const EMPTY_STATUS := Status(None, None, 0, "", "", "", [])

  const FINALIZER := "xc.f5.com/cleanup"
  const ORPHAN := "orphan"

  /** A snapshot of an OriginPool; `deletionPolicy` is the annotation's value, empty when absent. */
  datatype CR = CR(
    id: Name,
    generation: nat,
    deleting: bool,
    finalizers: set<string>,
    deletionPolicy: string,
    spec: OriginPoolSpec,
    status: Status)

  function KeyOf(cr: CR): XcKey {
    XcKey(cr.spec.xcNamespace, cr.id.name)
  }

  type Origins = seq<Option<ResolvedOrigin>>

  // ----- The resumable machine -----

  datatype Result = Finished | Requeue | RequeueAfter(seconds: nat) | ReturnError

  datatype Operation = Validate | GetOp | CreateOp | UpdateOp | DeleteOp

  /**
   Where a reconcile stands: the call it is about to make and what it carries.
   `matched` in a status write: the origins whose payload the XC object was just
   seen to hold, when that is what the write reports.
   */
  datatype Pc =
    | Idle(result: Result)
    | Getting(cr: CR, origins: Origins)
    | Creating(cr: CR, origins: Origins)
    | Replacing(cr: CR, origins: Origins, resourceVersion: string)
    | Deleting(cr: CR)
    | WritingObject(cr: CR)
    | WritingStatus(cr: CR, landed: Result, lost: Result, matched: Option<Origins>)

  function WithReady(cr: CR, status: bool, reason: Reason): CR {
    cr.(status := cr.status.(ready := Some(Condition(status, reason, cr.generation))))
  }

  function WithSynced(cr: CR, status: bool, reason: Reason): CR {
    cr.(status := cr.status.(synced := Some(Condition(status, reason, cr.generation))))
  }

  function Observed(cr: CR): CR {
    cr.(status := cr.status.(observedGeneration := cr.generation))
  }

  /** `setStatus`: without an object the XC identity in the status stays. */
  function StatusSet(cr: CR, ready: bool, synced: bool, reason: Reason, o: Option<XcObject>): CR {
    var seen := Observed(WithSynced(WithReady(cr, ready, reason), synced, reason));
    if o.None? then seen
    else seen.(status := seen.status.(xcResourceVersion := o.value.resourceVersion, xcUID := o.value.uid, xcNamespace := o.value.namespace))
  }

  /** How every success is reported. */
  function Reported(cr: CR, reason: Reason, o: XcObject): CR {
    StatusSet(cr, true, true, reason, Some(o))
  }

  function FailReason(op: Operation): Reason {
    match op
    case UpdateOp => UpdateFailed
    case DeleteOp => DeleteFailed
    case _ => CreateFailed
  }

  function ErrorReason(e: XcError, op: Operation): Reason {
    match e
    case AuthError => AuthFailure
    case ConflictError => Conflict
    case RateLimitedError => RateLimited
    case ServerFailure => ServerErrorSeen
    case _ => FailReason(op)
  }

  function ErrorResult(e: XcError): Result {
    match e
    case AuthError => Finished
    case ConflictError => Requeue
    case RateLimitedError => RequeueAfter(60)
    case ServerFailure => RequeueAfter(30)
    case _ => RequeueAfter(10)
  }

  /** `handleXCError`: only an authentication error touches Ready; a failed status write is ignored. */
  function OnError(cr: CR, e: XcError, op: Operation): Pc {
    var reason := ErrorReason(e, op);
    var noted := if e.AuthError? then WithReady(cr, false, reason) else cr;
    WritingStatus(Observed(WithSynced(noted, false, reason)), ErrorResult(e), ErrorResult(e), None)
  }

  function Start(stored: Option<CR>, found: DiscoveryResult, refsPermitted: bool): Pc {
    if stored.None? then Idle(Finished)
    else
      var cr := stored.value;
      if cr.deleting then
        if FINALIZER !in cr.finalizers then Idle(Finished)
        else if cr.deletionPolicy != ORPHAN then Deleting(cr)
        else WritingObject(Released(cr))
      else if FINALIZER !in cr.finalizers then
        WritingObject(cr.(finalizers := cr.finalizers + {FINALIZER}))
      else if HasDiscover(cr.spec) then
        var seen := cr.(status := cr.status.(discovered := found.discovered));
        if !found.allResolved then
          WritingStatus(Observed(WithReady(seen, false, DiscoveryPending)), RequeueAfter(10), ReturnError, None)
        else Validated(seen, found.origins, refsPermitted)
      else Validated(cr, [], refsPermitted)
  }

  function Released(cr: CR): CR {
    cr.(finalizers := cr.finalizers - {FINALIZER})
  }

  function Validated(cr: CR, origins: Origins, refsPermitted: bool): Pc {
    if refsPermitted then Getting(cr, origins) else OnError(cr, OtherError, Validate)
  }

  function ErrorOf(reply: XcReply): XcError {
    if reply.Failed? then reply.error else OtherError
  }

  predicate TalksToXc(pc: Pc) {
    pc.Getting? || pc.Creating? || pc.Replacing? || pc.Deleting?
  }

  function XcRequest(pc: Pc): XcCall
    requires TalksToXc(pc)
  {
    match pc
    case Getting(cr, _) => GetPool(KeyOf(cr))
    case Creating(cr, origins) => CreatePool(KeyOf(cr), Mapper.Payload(cr.spec, origins))
    case Replacing(cr, origins, rv) => ReplacePool(KeyOf(cr), rv, Mapper.Payload(cr.spec, origins))
    case Deleting(cr) => DeletePool(KeyOf(cr))
  }

  /** `handleUpdate` up to its next call. */
  function Compared(cr: CR, origins: Origins, o: XcObject): Pc {
    match Diff.CompareStored(o.spec, Mapper.Payload(cr.spec, origins))
    case Err => Idle(ReturnError)
    case Ok(false) => WritingStatus(Reported(cr, UpToDate, o), Finished, ReturnError, Some(origins))
    case Ok(true) => Replacing(cr, origins, o.resourceVersion)
  }

  function AfterXc(pc: Pc, reply: XcReply): Pc
    requires TalksToXc(pc)
  {
    match pc
    case Getting(cr, origins) =>
      if reply.Got? then Compared(cr, origins, reply.found)
      else if reply == Failed(NotFound) then Creating(cr, origins)
      else OnError(cr, ErrorOf(reply), GetOp)
    case Creating(cr, origins) =>
      if reply.Got? then WritingStatus(Reported(cr, CreateSucceeded, reply.found), Finished, ReturnError, Some(origins))
      else OnError(cr, ErrorOf(reply), CreateOp)
    case Replacing(cr, origins, _) =>
      if reply.Got? then WritingStatus(Reported(cr, UpdateSucceeded, reply.found), Finished, ReturnError, Some(origins))
      else OnError(cr, ErrorOf(reply), UpdateOp)
    case Deleting(cr) =>
      if reply.Deleted? || reply == Failed(NotFound) then WritingObject(Released(cr))
      else OnError(cr, ErrorOf(reply), DeleteOp)
  }

  /** A create or replace always ends in a status report. */
  lemma AfterMutation(pc: Pc, reply: XcReply)
    requires pc.Creating? || pc.Replacing?
    ensures var next := AfterXc(pc, reply);
            && next.WritingStatus? && next.cr == pc.cr.(status := next.cr.status)
            && next.cr.status.discovered == pc.cr.status.discovered
            && if reply.Got?
               then && next.landed == Finished && next.lost == ReturnError && next.matched == Some(pc.origins)
                    && next.cr.status.synced == Some(Condition(true, if pc.Creating? then CreateSucceeded else UpdateSucceeded, pc.cr.generation))
               else && next.landed == next.lost == ErrorResult(ErrorOf(reply)) && next.matched == None
                    && next.cr.status.synced.Some? && !next.cr.status.synced.value.status
  {
  }

  function AfterWrite(pc: Pc, ok: bool): Pc
    requires pc.WritingObject? || pc.WritingStatus?
  {
    match pc
    case WritingObject(_) => Idle(if ok then Finished else ReturnError)
    case WritingStatus(_, landed, lost, _) => Idle(if ok then landed else lost)
  }

  // ----- Conversations -----

  datatype Exchange =
    | XcExchange(call: XcCall, reply: XcReply)
    | ObjectWrite(cr: CR, ok: bool)
    | StatusWrite(cr: CR, ok: bool)

  function Rank(pc: Pc): nat {
    match pc
    case Idle(_) => 0
    case WritingObject(_) => 1
    case WritingStatus(_, _, _, _) => 1
    case Getting(_, _) => 3
    case _ => 2
  }

  /** The n-th call of the process is answered by `xc(n)` or `writes(n)`. */
  function Conversation(pc: Pc, xc: nat -> XcReply, writes: nat -> bool, log: seq<Exchange>): (seq<Exchange>, Result)
    decreases Rank(pc)
  {
    var n := |log|;
    if pc.Idle? then (log, pc.result)
    else if TalksToXc(pc) then
      Conversation(AfterXc(pc, xc(n)), xc, writes, log + [XcExchange(XcRequest(pc), xc(n))])
    else
      var e := if pc.WritingObject? then ObjectWrite(pc.cr, writes(n)) else StatusWrite(pc.cr, writes(n));
      Conversation(AfterWrite(pc, writes(n)), xc, writes, log + [e])
  }

  /** A Kubernetes write is always the last call of a reconcile. */
  lemma WriteIsLast(pc: Pc, xc: nat -> XcReply, writes: nat -> bool, log: seq<Exchange>)
    requires pc.WritingObject? || pc.WritingStatus?
    ensures var ok := writes(|log|);
            Conversation(pc, xc, writes, log)
            == (log + [if pc.WritingObject? then ObjectWrite(pc.cr, ok) else StatusWrite(pc.cr, ok)], AfterWrite(pc, ok).result)
  {
  }

  /** Discovery reports an origin for every discover entry and for nothing else exactly when it reports completion. */
  lemma CompleteDiscoveryIsAligned(isIP: string -> bool, cluster: Cluster, pool: Pool)
    ensures ResolveAll(isIP, cluster, pool).allResolved <==> Mapper.Aligned(pool.spec, ResolveAll(isIP, cluster, pool).origins)
  {
    var servers, ns := pool.spec.originServers, pool.id.namespace;
    var found := ResolveAll(isIP, cluster, pool);
    forall i | 0 <= i < |servers|
      ensures Mapper.ResolvedAt(found.origins, i) == OriginOf(isIP, cluster, ns, servers[i])
    {
    }
  }

  predicate MayWriteXc(stored: Option<CR>, found: DiscoveryResult, refsPermitted: bool) {
    && stored.Some? && !stored.value.deleting && FINALIZER in stored.value.finalizers
    && refsPermitted && (HasDiscover(stored.value.spec) ==> found.allResolved)
  }

  /** What a conversation adds to the log. */
  function Added(pc: Pc, xc: nat -> XcReply, writes: nat -> bool, log: seq<Exchange>): seq<Exchange> {
    ConversationGrows(pc, xc, writes, log);
    Conversation(pc, xc, writes, log).0[|log|..]
  }

  lemma {:induction false} ConversationGrows(pc: Pc, xc: nat -> XcReply, writes: nat -> bool, log: seq<Exchange>)
    ensures log <= Conversation(pc, xc, writes, log).0
    decreases Rank(pc)
  {
    if TalksToXc(pc) {
      ConversationGrows(AfterXc(pc, xc(|log|)), xc, writes, log + [XcExchange(XcRequest(pc), xc(|log|))]);
    } else if !pc.Idle? {
      WriteIsLast(pc, xc, writes, log);
    }
  }

  /** A call to XC, and then what follows its answer. */
  lemma AddedAfterXc(pc: Pc, xc: nat -> XcReply, writes: nat -> bool, log: seq<Exchange>)
    requires TalksToXc(pc)
    ensures var e := XcExchange(XcRequest(pc), xc(|log|));
            Added(pc, xc, writes, log) == [e] + Added(AfterXc(pc, xc(|log|)), xc, writes, log + [e])
  {
    var e := XcExchange(XcRequest(pc), xc(|log|));
    ConversationGrows(AfterXc(pc, xc(|log|)), xc, writes, log + [e]);
  }

  lemma AddedByWrite(pc: Pc, xc: nat -> XcReply, writes: nat -> bool, log: seq<Exchange>)
    requires pc.WritingObject? || pc.WritingStatus?
    ensures var ok := writes(|log|);
            Added(pc, xc, writes, log) == [if pc.WritingObject? then ObjectWrite(pc.cr, ok) else StatusWrite(pc.cr, ok)]
  {
    WriteIsLast(pc, xc, writes, log);
  }

  /**
   Reference safety of a whole reconcile, whatever the servers answer: a GET, POST
   or PUT is made only for a live pool that carries the finalizer, whose references
   are all permitted and whose discovery is complete. A DELETE is made without
   looking at references, but only for a pool being deleted and not to be orphaned.
   */
  lemma CallsAreGuarded(stored: Option<CR>, found: DiscoveryResult, refsPermitted: bool, xc: nat -> XcReply, writes: nat -> bool, log: seq<Exchange>)
    ensures forall e | e in Added(Start(stored, found, refsPermitted), xc, writes, log) && e.XcExchange? ::
              if e.call.DeletePool?
              then stored.Some? && stored.value.deleting && FINALIZER in stored.value.finalizers && stored.value.deletionPolicy != ORPHAN
              else MayWriteXc(stored, found, refsPermitted)
    ensures forall e | e in Added(Start(stored, found, refsPermitted), xc, writes, log) && e.XcExchange? ::
              e.call.key == KeyOf(stored.value)
  {
    var pc := Start(stored, found, refsPermitted);
    if pc.WritingObject? || pc.WritingStatus? {
      AddedByWrite(pc, xc, writes, log);
    } else if pc.Deleting? {
      AfterDeleteOnlyWrites(pc, xc, writes, log);
    } else if pc.Getting? {
      GettingTalksToOneKey(pc, xc, writes, log);
    }
  }

  lemma AfterDeleteOnlyWrites(pc: Pc, xc: nat -> XcReply, writes: nat -> bool, log: seq<Exchange>)
    requires pc.Deleting?
    ensures forall e | e in Added(pc, xc, writes, log) && e.XcExchange? :: e.call == DeletePool(KeyOf(pc.cr))
  {
    AddedAfterXc(pc, xc, writes, log);
    AddedByWrite(AfterXc(pc, xc(|log|)), xc, writes, log + [XcExchange(XcRequest(pc), xc(|log|))]);
  }

  lemma GettingTalksToOneKey(pc: Pc, xc: nat -> XcReply, writes: nat -> bool, log: seq<Exchange>)
    requires TalksToXc(pc) && !pc.Deleting?
    ensures forall e | e in Added(pc, xc, writes, log) && e.XcExchange? ::
              !e.call.DeletePool? && e.call.key == KeyOf(pc.cr)
    decreases Rank(pc)
  {
    AddedAfterXc(pc, xc, writes, log);
    var next := AfterXc(pc, xc(|log|));
    var log' := log + [XcExchange(XcRequest(pc), xc(|log|))];
    if next.Creating? || next.Replacing? {
      GettingTalksToOneKey(next, xc, writes, log');
    } else if !next.Idle? {
      AddedByWrite(next, xc, writes, log');
    }
  }

  /**
   What a reconcile of a live pool publishes about discovery. Without discover
   entries the old list stays as it was, even if the last entry was just removed; a
   pending discovery writes Ready=False and leaves Synced as it was.
   */
  lemma DiscoveryIsPublished(cr: CR, found: DiscoveryResult, refsPermitted: bool, xc: nat -> XcReply, writes: nat -> bool, log: seq<Exchange>)
    requires !cr.deleting && FINALIZER in cr.finalizers
    ensures forall e | e in Added(Start(Some(cr), found, refsPermitted), xc, writes, log) && e.StatusWrite? ::
              && e.cr.status.discovered == (if HasDiscover(cr.spec) then found.discovered else cr.status.discovered)
              && (HasDiscover(cr.spec) && !found.allResolved ==>
                    e.cr.status.synced == cr.status.synced
                    && e.cr.status.ready == Some(Condition(false, DiscoveryPending, cr.generation)))
  {
    var pc := Start(Some(cr), found, refsPermitted);
    if pc.Getting? {
      DiscoveredIsCarried(pc, xc, writes, log);
    } else {
      AddedByWrite(pc, xc, writes, log);
    }
  }

  lemma DiscoveredIsCarried(pc: Pc, xc: nat -> XcReply, writes: nat -> bool, log: seq<Exchange>)
    requires TalksToXc(pc) && !pc.Deleting?
    ensures forall e | e in Added(pc, xc, writes, log) && e.StatusWrite? ::
              e.cr.status.discovered == pc.cr.status.discovered
    decreases Rank(pc)
  {
    AddedAfterXc(pc, xc, writes, log);
    var next := AfterXc(pc, xc(|log|));
    var log' := log + [XcExchange(XcRequest(pc), xc(|log|))];
    if next.Creating? || next.Replacing? {
      DiscoveredIsCarried(next, xc, writes, log');
    } else if !next.Idle? {
      AddedByWrite(next, xc, writes, log');
    }
  }

  // ----- The source's form -----

  /** The two servers the reconciler talks to: every call is logged and answered by the script. */
  class Servers {
    const xc: nat -> XcReply
    const writes: nat -> bool
    var log: seq<Exchange>

    constructor (xc: nat -> XcReply, writes: nat -> bool)
      ensures this.xc == xc && this.writes == writes && log == []
    {
      this.xc, this.writes := xc, writes;
      log := [];
    }

    method Ask(call: XcCall) returns (reply: XcReply)
      modifies this
      ensures reply == xc(|old(log)|) && log == old(log) + [XcExchange(call, reply)]
    {
      reply := xc(|log|);
      log := log + [XcExchange(call, reply)];
    }

    method Update(cr: CR) returns (ok: bool)
      modifies this
      ensures ok == writes(|old(log)|) && log == old(log) + [ObjectWrite(cr, ok)]
    {
      ok := writes(|log|);
      log := log + [ObjectWrite(cr, ok)];
    }

    method UpdateStatus(cr: CR) returns (ok: bool)
      modifies this
      ensures ok == writes(|old(log)|) && log == old(log) + [StatusWrite(cr, ok)]
    {
      ok := writes(|log|);
      log := log + [StatusWrite(cr, ok)];
    }
  }

  /** The in-memory `cr` that one reconcile reads, changes and writes back. */
  class PoolObject {
    var cr: CR

    constructor (cr: CR)
      ensures this.cr == cr
    {
      this.cr := cr;
    }

    method SetReady(status: bool, reason: Reason)
      modifies this
      ensures cr == WithReady(old(cr), status, reason)
    {
      cr := cr.(status := cr.status.(ready := Some(Condition(status, reason, cr.generation))));
    }

    method SetSynced(status: bool, reason: Reason)
      modifies this
      ensures cr == WithSynced(old(cr), status, reason)
    {
      cr := cr.(status := cr.status.(synced := Some(Condition(status, reason, cr.generation))));
    }

    method Observe()
      modifies this
      ensures cr == Observed(old(cr))
    {
      cr := cr.(status := cr.status.(observedGeneration := cr.generation));
    }

    method SetStatus(ready: bool, synced: bool, reason: Reason, o: Option<XcObject>)
      modifies this
      ensures cr == StatusSet(old(cr), ready, synced, reason, o)
    {
      SetReady(ready, reason);
      SetSynced(synced, reason);
      Observe();
      if o.Some? {
        cr := cr.(status := cr.status.(
          xcResourceVersion := o.value.resourceVersion, xcUID := o.value.uid, xcNamespace := o.value.namespace));
      }
    }

    method SetFinalizers(finalizers: set<string>)
      modifies this
      ensures cr == old(cr).(finalizers := finalizers)
    {
      cr := cr.(finalizers := finalizers);
    }

    method SetDiscovered(discovered: seq<DiscoveredOrigin>)
      modifies this
      ensures cr == old(cr).(status := old(cr).status.(discovered := discovered))
    {
      cr := cr.(status := cr.status.(discovered := discovered));
    }
  }

  /** The answer to reading the pool from the cache. */
  datatype Fetched = Found(cr: CR) | Missing | ReadFailed

  function FoundFor(isIP: string -> bool, cluster: Cluster, cr: CR): DiscoveryResult {
    ResolveAll(isIP, cluster, Pool(cr.id, cr.spec))
  }

  predicate RefsPermitted(refs: RefView, cr: CR) {
    AllPermitted(refs, Parent(cr.id.namespace, cr.spec.xcNamespace), HealthCheckRefs(cr.spec.healthChecks))
  }

  class OriginPoolReconciler {
    const servers: Servers

    constructor (servers: Servers)
      ensures this.servers == servers
    {
      this.servers := servers;
    }

    /** From machine position `pc` on, the method held the machine's conversation. */
    twostate predicate Held(pc: Pc, result: Result)
      reads servers
    {
      (servers.log, result) == Conversation(pc, servers.xc, servers.writes, old(servers.log))
    }

    /**
     The whole reconcile; `fetched` is the answer to reading the pool. Whatever the
     servers answer, no GET, POST or PUT is sent unless every reference is permitted.
     */
    method Reconcile(fetched: Fetched, isIP: string -> bool, cluster: Cluster, refs: RefView) returns (result: Result)
      modifies servers
      ensures fetched.ReadFailed? ==> result == ReturnError && servers.log == old(servers.log)
      ensures fetched.Missing? ==> result == Finished && servers.log == old(servers.log)
      ensures fetched.Found? ==>
                Held(Start(Some(fetched.cr), FoundFor(isIP, cluster, fetched.cr), RefsPermitted(refs, fetched.cr)), result)
      ensures old(servers.log) <= servers.log
      ensures forall e | e in servers.log[|old(servers.log)|..] && e.XcExchange? && !e.call.DeletePool? ::
                fetched.Found? && RefsPermitted(refs, fetched.cr)
    {
      if fetched.ReadFailed? {
        return ReturnError;
      }
      if fetched.Missing? {
        return Finished;
      }
      CallsAreGuarded(Some(fetched.cr), FoundFor(isIP, cluster, fetched.cr), RefsPermitted(refs, fetched.cr),
                      servers.xc, servers.writes, servers.log);
      ConversationGrows(Start(Some(fetched.cr), FoundFor(isIP, cluster, fetched.cr), RefsPermitted(refs, fetched.cr)),
                        servers.xc, servers.writes, servers.log);
      var obj := new PoolObject(fetched.cr);
      if obj.cr.deleting {
        result := HandleDeletion(obj);
        return;
      }
      if FINALIZER !in obj.cr.finalizers {
        obj.SetFinalizers(obj.cr.finalizers + {FINALIZER});
        var ok := servers.Update(obj.cr);
        result := if ok then Finished else ReturnError;
        return;
      }
      result := SyncLive(obj, isIP, cluster, refs);
    }

    /** The rest of `Reconcile`, for a pool that is not being deleted and carries the finalizer. */
    method SyncLive(obj: PoolObject, isIP: string -> bool, cluster: Cluster, refs: RefView) returns (result: Result)
      requires !obj.cr.deleting && FINALIZER in obj.cr.finalizers
      modifies servers, obj
      ensures var cr := old(obj.cr);
              Held(Start(Some(cr), FoundFor(isIP, cluster, cr), RefsPermitted(refs, cr)), result)
    {
      var resolved: Origins := [];
      if HasDiscover(obj.cr.spec) {
        var found := ResolveAllOrigins(isIP, cluster, Pool(obj.cr.id, obj.cr.spec));
        resolved := found.origins;
        obj.SetDiscovered(found.discovered);
        if !found.allResolved {
          result := ReportPending(obj);
          return;
        }
      }
      result := SyncValidated(obj, resolved, refs);
    }

    /** The status write of an incomplete discovery. */
    method ReportPending(obj: PoolObject) returns (result: Result)
      modifies servers, obj
      ensures var cr := Observed(WithReady(old(obj.cr), false, DiscoveryPending));
              Held(WritingStatus(cr, RequeueAfter(10), ReturnError, None), result)
    {
      obj.SetReady(false, DiscoveryPending);
      obj.Observe();
      WriteIsLast(WritingStatus(obj.cr, RequeueAfter(10), ReturnError, None), servers.xc, servers.writes, servers.log);
      var ok := servers.UpdateStatus(obj.cr);
      result := if ok then RequeueAfter(10) else ReturnError;
    }

    /** The rest, once origins are resolved: the references, then the GET. */
    method SyncValidated(obj: PoolObject, resolved: Origins, refs: RefView) returns (result: Result)
      modifies servers, obj
      ensures Held(Validated(old(obj.cr), resolved, RefsPermitted(refs, old(obj.cr))), result)
    {
      var parent := Parent(obj.cr.id.namespace, obj.cr.spec.xcNamespace);
      var verdict := ValidateHealthChecks(refs, parent, obj.cr.spec.healthChecks);
      if verdict.Some? {
        result := HandleXCError(obj, OtherError, Validate);
        return;
      }
      var reply := servers.Ask(GetPool(KeyOf(obj.cr)));
      if reply == Failed(NotFound) {
        result := HandleCreate(obj, resolved);
      } else if reply.Got? {
        result := HandleUpdate(obj, reply.found, resolved);
      } else {
        result := HandleXCError(obj, ErrorOf(reply), GetOp);
      }
    }

    method HandleCreate(obj: PoolObject, resolved: Origins) returns (result: Result)
      modifies servers, obj
      ensures Held(Creating(old(obj.cr), resolved), result)
    {
      var spec := Mapper.MapOriginPoolSpec(obj.cr.spec, resolved);
      var reply := servers.Ask(CreatePool(KeyOf(obj.cr), Mapper.EncodeSpec(spec)));
      if !reply.Got? {
        result := HandleXCError(obj, ErrorOf(reply), CreateOp);
        return;
      }
      obj.SetStatus(true, true, CreateSucceeded, Some(reply.found));
      WriteIsLast(WritingStatus(obj.cr, Finished, ReturnError, Some(resolved)), servers.xc, servers.writes, servers.log);
      var ok := servers.UpdateStatus(obj.cr);
      result := if ok then Finished else ReturnError;
    }

    method HandleUpdate(obj: PoolObject, current: XcObject, resolved: Origins) returns (result: Result)
      modifies servers, obj
      ensures Held(Compared(old(obj.cr), resolved, current), result)
    {
      var spec := Mapper.MapOriginPoolSpec(obj.cr.spec, resolved);
      var desired := Mapper.EncodeSpec(spec);
      var needsUpdate := Diff.CompareStored(current.spec, desired);
      if needsUpdate.Err? {
        return ReturnError;
      }
      if !needsUpdate.value {
        obj.SetStatus(true, true, UpToDate, Some(current));
        WriteIsLast(WritingStatus(obj.cr, Finished, ReturnError, Some(resolved)), servers.xc, servers.writes, servers.log);
        var ok := servers.UpdateStatus(obj.cr);
        result := if ok then Finished else ReturnError;
        return;
      }
      var reply := servers.Ask(ReplacePool(KeyOf(obj.cr), current.resourceVersion, desired));
      if !reply.Got? {
        result := HandleXCError(obj, ErrorOf(reply), UpdateOp);
        return;
      }
      obj.SetStatus(true, true, UpdateSucceeded, Some(reply.found));
      WriteIsLast(WritingStatus(obj.cr, Finished, ReturnError, Some(resolved)), servers.xc, servers.writes, servers.log);
      var ok := servers.UpdateStatus(obj.cr);
      result := if ok then Finished else ReturnError;
    }

    method HandleDeletion(obj: PoolObject) returns (result: Result)
      requires obj.cr.deleting
      modifies servers, obj
      ensures Held(Start(Some(old(obj.cr)), DiscoveryResult([], [], true), true), result)
    {
      if FINALIZER !in obj.cr.finalizers {
        return Finished;
      }
      if obj.cr.deletionPolicy != ORPHAN {
        var reply := servers.Ask(DeletePool(KeyOf(obj.cr)));
        if !reply.Deleted? && reply != Failed(NotFound) {
          result := HandleXCError(obj, ErrorOf(reply), DeleteOp);
          return;
        }
      }
      obj.SetFinalizers(obj.cr.finalizers - {FINALIZER});
      WriteIsLast(WritingObject(obj.cr), servers.xc, servers.writes, servers.log);
      var ok := servers.Update(obj.cr);
      result := if ok then Finished else ReturnError;
    }

    method HandleXCError(obj: PoolObject, e: XcError, op: Operation) returns (result: Result)
      modifies servers, obj
      ensures Held(OnError(old(obj.cr), e, op), result)
    {
      var reason := ErrorReason(e, op);
      if e.AuthError? {
        obj.SetReady(false, reason);
      }
      obj.SetSynced(false, reason);
      obj.Observe();
      var _ := servers.UpdateStatus(obj.cr);
      result := ErrorResult(e);
    }
  }
}
