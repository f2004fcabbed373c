/**
 What one reconcile asks, writes and answers, field by field, for every script of
 answers: the tables of internal/controller/originpool_controller.go, stated on the
 conversations of the reconciler and from the stored pool, what discovery found and
 what the servers said.
 */
module ReconcileAnswers {
  import opened Wrappers
  import opened Json
  import opened XcApi
  import opened OriginPoolTypes
  import opened Discovery
  import opened References
  import opened Reconciler
  import opened PayloadDocument
  import Mapper = OriginPoolMapper
  import Diff

  /** Some origin server is to be discovered. */
  predicate Discovers(cr: CR) {
    exists i | 0 <= i < |cr.spec.originServers| :: cr.spec.originServers[i].discover.Some?
  }

  /** The pool as it is when its discovery is done: only the published list may be new. */
  predicate IsSeen(cr: CR, found: DiscoveryResult, seen: CR) {
    seen == cr.(status := cr.status.(discovered := if Discovers(cr) then found.discovered else cr.status.discovered))
  }

  /** What a written status may differ in from the pool as seen: the two conditions, the observed generation and the XC identity. */
  predicate StatusOf(seen: CR, w: CR) {
    w == seen.(status := seen.status.(
      ready := w.status.ready, synced := w.status.synced, observedGeneration := seen.generation,
      xcResourceVersion := w.status.xcResourceVersion, xcUID := w.status.xcUID, xcNamespace := w.status.xcNamespace))
  }

  predicate SameIdentity(s: Status, w: Status) {
    w.xcResourceVersion == s.xcResourceVersion && w.xcUID == s.xcUID && w.xcNamespace == s.xcNamespace
  }

  /** A success report: both conditions True for this reason, and the identity of the object XC answered with. */
  predicate ReportsSuccess(seen: CR, w: CR, reason: Reason, o: XcObject) {
    && StatusOf(seen, w)
    && w.status.ready == Some(Condition(true, reason, seen.generation))
    && w.status.synced == Some(Condition(true, reason, seen.generation))
    && w.status.xcResourceVersion == o.resourceVersion && w.status.xcUID == o.uid && w.status.xcNamespace == o.namespace
  }

  /** The reason an error is reported with; `fallback` is that of the operation. */
  predicate IsReason(e: XcError, fallback: Reason, reason: Reason) {
    match e
    case AuthError => reason == AuthFailure
    case ConflictError => reason == Conflict
    case RateLimitedError => reason == RateLimited
    case ServerFailure => reason == ServerErrorSeen
    case NotFound => reason == fallback
    case OtherError => reason == fallback
  }

  /** An authentication failure is not retried, a conflict at once, the rest after a while. */
  predicate IsRequeue(e: XcError, result: Reconciler.Result) {
    match e
    case AuthError => result == Finished
    case ConflictError => result == Requeue
    case RateLimitedError => result == RequeueAfter(60)
    case ServerFailure => result == RequeueAfter(30)
    case NotFound => result == RequeueAfter(10)
    case OtherError => result == RequeueAfter(10)
  }

  /** A failure report: Synced is False, Ready follows for an authentication failure only, and the identity stays. */
  predicate ReportsFailure(seen: CR, w: CR, e: XcError, fallback: Reason) {
    && StatusOf(seen, w) && SameIdentity(seen.status, w.status)
    && w.status.synced.Some? && !w.status.synced.value.status && w.status.synced.value.observedGeneration == seen.generation
    && IsReason(e, fallback, w.status.synced.value.reason)
    && w.status.ready == (if e.AuthError? then Some(Condition(false, AuthFailure, seen.generation)) else seen.status.ready)
  }

  /** A reconcile that ends by reporting this failure, whether or not the report lands. */
  predicate EndsInFailure(seen: CR, e: XcError, fallback: Reason, added: seq<Exchange>, result: Reconciler.Result) {
    && |added| == 1 && added[0].StatusWrite?
    && ReportsFailure(seen, added[0].cr, e, fallback) && IsRequeue(e, result)
  }

  /** A reconcile that ends by reporting success; if the report is refused, in an error. */
  predicate EndsInSuccess(seen: CR, reason: Reason, o: XcObject, added: seq<Exchange>, result: Reconciler.Result) {
    && |added| == 1 && added[0].StatusWrite?
    && ReportsSuccess(seen, added[0].cr, reason, o) && result == (if added[0].ok then Finished else ReturnError)
  }

  /** An answer of the wrong kind is an error like any other. */
  function ErrorIn(reply: XcReply): (e: XcError)
    ensures reply.Failed? ==> reply == Failed(e)
    ensures !reply.Failed? ==> e == OtherError
  {
    match reply
    case Failed(e) => e
    case _ => OtherError
  }

  /** The end after a create or replace was answered. */
  predicate EndsAfterWrite(seen: CR, reply: XcReply, success: Reason, failure: Reason, added: seq<Exchange>, result: Reconciler.Result) {
    if reply.Got? then EndsInSuccess(seen, success, reply.found, added, result)
    else EndsInFailure(seen, ErrorIn(reply), failure, added, result)
  }

  predicate IsOwnKey(key: XcKey, cr: CR) {
    key == XcKey(cr.spec.xcNamespace, cr.id.name)
  }

  /** The origins that go into the payload. */
  function Sent(cr: CR, found: DiscoveryResult): Origins {
    if Discovers(cr) then found.origins else []
  }

  /** From the answer to the GET on. */
  ghost predicate AfterGet(cr: CR, found: DiscoveryResult, seen: CR, reply: XcReply, rest: seq<Exchange>, result: Reconciler.Result) {
    if reply == Failed(NotFound) then
      && |rest| == 2 && rest[0].XcExchange? && rest[0].call.CreatePool? && IsOwnKey(rest[0].call.key, cr)
      && IsPayload(rest[0].call.spec, cr.spec, Sent(cr, found))
      && EndsAfterWrite(seen, rest[0].reply, CreateSucceeded, CreateFailed, rest[1..], result)
    else if !reply.Got? then EndsInFailure(seen, ErrorIn(reply), CreateFailed, rest, result)
    else
      exists desired :: IsPayload(desired, cr.spec, Sent(cr, found)) &&
        match Diff.CompareStored(reply.found.spec, desired)
        case Err => rest == [] && result == ReturnError
        case Ok(false) => EndsInSuccess(seen, UpToDate, reply.found, rest, result)
        case Ok(true) =>
          && |rest| == 2 && rest[0].XcExchange?
          && rest[0].call == ReplacePool(XcKey(cr.spec.xcNamespace, cr.id.name), reply.found.resourceVersion, desired)
          && EndsAfterWrite(seen, rest[0].reply, UpdateSucceeded, UpdateFailed, rest[1..], result)
  }

  const CLEANUP := "xc.f5.com/cleanup"

  /** The object is written back with its finalizers changed and nothing else. */
  predicate EndsInObjectWrite(cr: CR, finalizers: set<string>, added: seq<Exchange>, result: Reconciler.Result) {
    && |added| == 1 && added[0].ObjectWrite?
    && added[0].cr == cr.(finalizers := finalizers)
    && result == (if added[0].ok then Finished else ReturnError)
  }

  /** A deletion: the operator's finalizer goes, and no other, once the object is gone or to be orphaned. */
  predicate AnswersDeletion(cr: CR, added: seq<Exchange>, result: Reconciler.Result) {
    if CLEANUP !in cr.finalizers then added == [] && result == Finished
    else if cr.deletionPolicy == "orphan" then EndsInObjectWrite(cr, cr.finalizers - {CLEANUP}, added, result)
    else
      && |added| == 2 && added[0].XcExchange? && added[0].call == DeletePool(XcKey(cr.spec.xcNamespace, cr.id.name))
      && if added[0].reply.Deleted? || added[0].reply == Failed(NotFound)
         then EndsInObjectWrite(cr, cr.finalizers - {CLEANUP}, added[1..], result)
         else EndsInFailure(cr, ErrorIn(added[0].reply), DeleteFailed, added[1..], result)
  }

  /** A discovery that is not complete: Ready is False, Synced and the identity stay. */
  predicate EndsPending(seen: CR, added: seq<Exchange>, result: Reconciler.Result) {
    && |added| == 1 && added[0].StatusWrite?
    && StatusOf(seen, added[0].cr) && SameIdentity(seen.status, added[0].cr.status)
    && added[0].cr.status.synced == seen.status.synced
    && added[0].cr.status.ready == Some(Condition(false, DiscoveryPending, seen.generation))
    && result == (if added[0].ok then RequeueAfter(10) else ReturnError)
  }

  ghost predicate AnswersLive(cr: CR, found: DiscoveryResult, permitted: bool, added: seq<Exchange>, result: Reconciler.Result) {
    exists seen :: IsSeen(cr, found, seen) &&
      if Discovers(cr) && !found.allResolved then EndsPending(seen, added, result)
      else if !permitted then EndsInFailure(seen, OtherError, CreateFailed, added, result)
      else
        && added != [] && added[0].XcExchange? && added[0].call == GetPool(XcKey(cr.spec.xcNamespace, cr.id.name))
        && AfterGet(cr, found, seen, added[0].reply, added[1..], result)
  }

  /** All that a reconcile of this stored pool does. */
  ghost predicate Answers(cr: CR, found: DiscoveryResult, permitted: bool, added: seq<Exchange>, result: Reconciler.Result) {
    if cr.deleting then AnswersDeletion(cr, added, result)
    else if CLEANUP !in cr.finalizers then EndsInObjectWrite(cr, cr.finalizers + {CLEANUP}, added, result)
    else AnswersLive(cr, found, permitted, added, result)
  }

  // ----- Proof -----

  /** What a conversation ends with. */
  function ResultOf(pc: Pc, xc: nat -> XcReply, writes: nat -> bool, log: seq<Exchange>): Reconciler.Result {
    Conversation(pc, xc, writes, log).1
  }

  lemma OneMoreCall(pc: Pc, xc: nat -> XcReply, writes: nat -> bool, log: seq<Exchange>)
    requires TalksToXc(pc)
    ensures var e := XcExchange(XcRequest(pc), xc(|log|));
            && Added(pc, xc, writes, log) == [e] + Added(AfterXc(pc, xc(|log|)), xc, writes, log + [e])
            && ResultOf(pc, xc, writes, log) == ResultOf(AfterXc(pc, xc(|log|)), xc, writes, log + [e])
  {
    AddedAfterXc(pc, xc, writes, log);
  }

  lemma LastWrite(pc: Pc, xc: nat -> XcReply, writes: nat -> bool, log: seq<Exchange>)
    requires pc.WritingObject? || pc.WritingStatus?
    ensures var ok := writes(|log|);
            && Added(pc, xc, writes, log) == [if pc.WritingObject? then ObjectWrite(pc.cr, ok) else StatusWrite(pc.cr, ok)]
            && ResultOf(pc, xc, writes, log)
               == (if pc.WritingObject? then (if ok then Finished else ReturnError) else if ok then pc.landed else pc.lost)
  {
    WriteIsLast(pc, xc, writes, log);
    AddedByWrite(pc, xc, writes, log);
  }

  lemma FailureAnswers(seen: CR, e: XcError, op: Operation, fallback: Reason, xc: nat -> XcReply, writes: nat -> bool, log: seq<Exchange>)
    requires match op case UpdateOp => fallback == UpdateFailed case DeleteOp => fallback == DeleteFailed case _ => fallback == CreateFailed
    ensures var pc := OnError(seen, e, op);
            EndsInFailure(seen, e, fallback, Added(pc, xc, writes, log), ResultOf(pc, xc, writes, log))
  {
    LastWrite(OnError(seen, e, op), xc, writes, log);
  }

  lemma SuccessAnswers(seen: CR, reason: Reason, o: XcObject, origins: Origins, xc: nat -> XcReply, writes: nat -> bool, log: seq<Exchange>)
    ensures var pc := WritingStatus(Reported(seen, reason, o), Finished, ReturnError, Some(origins));
            EndsInSuccess(seen, reason, o, Added(pc, xc, writes, log), ResultOf(pc, xc, writes, log))
  {
    LastWrite(WritingStatus(Reported(seen, reason, o), Finished, ReturnError, Some(origins)), xc, writes, log);
  }

  lemma CreateAnswers(seen: CR, origins: Origins, xc: nat -> XcReply, writes: nat -> bool, log: seq<Exchange>)
    ensures var pc := Creating(seen, origins); var added := Added(pc, xc, writes, log);
            && |added| == 2 && added[0].XcExchange?
            && added[0].call == CreatePool(XcKey(seen.spec.xcNamespace, seen.id.name), Mapper.Payload(seen.spec, origins))
            && EndsAfterWrite(seen, added[0].reply, CreateSucceeded, CreateFailed, added[1..], ResultOf(pc, xc, writes, log))
  {
    var pc, reply := Creating(seen, origins), xc(|log|);
    OneMoreCall(pc, xc, writes, log);
    var log' := log + [XcExchange(XcRequest(pc), reply)];
    if reply.Got? {
      SuccessAnswers(seen, CreateSucceeded, reply.found, origins, xc, writes, log');
    } else {
      FailureAnswers(seen, ErrorIn(reply), CreateOp, CreateFailed, xc, writes, log');
    }
  }

  lemma ReplaceAnswers(seen: CR, origins: Origins, resourceVersion: string, xc: nat -> XcReply, writes: nat -> bool, log: seq<Exchange>)
    ensures var pc := Replacing(seen, origins, resourceVersion); var added := Added(pc, xc, writes, log);
            && |added| == 2 && added[0].XcExchange?
            && added[0].call == ReplacePool(XcKey(seen.spec.xcNamespace, seen.id.name), resourceVersion, Mapper.Payload(seen.spec, origins))
            && EndsAfterWrite(seen, added[0].reply, UpdateSucceeded, UpdateFailed, added[1..], ResultOf(pc, xc, writes, log))
  {
    var pc, reply := Replacing(seen, origins, resourceVersion), xc(|log|);
    OneMoreCall(pc, xc, writes, log);
    var log' := log + [XcExchange(XcRequest(pc), reply)];
    if reply.Got? {
      SuccessAnswers(seen, UpdateSucceeded, reply.found, origins, xc, writes, log');
    } else {
      FailureAnswers(seen, ErrorIn(reply), UpdateOp, UpdateFailed, xc, writes, log');
    }
  }

  lemma ComparisonAnswers(cr: CR, found: DiscoveryResult, seen: CR, o: XcObject, xc: nat -> XcReply, writes: nat -> bool, log: seq<Exchange>)
    requires seen == cr.(status := seen.status)
    ensures var pc := Compared(seen, Sent(cr, found), o);
            AfterGet(cr, found, seen, Got(o), Added(pc, xc, writes, log), ResultOf(pc, xc, writes, log))
  {
    var origins := Sent(cr, found);
    PayloadIsSent(cr.spec, origins);
    var desired := Mapper.Payload(cr.spec, origins);
    assert IsPayload(desired, cr.spec, origins);
    match Diff.CompareStored(o.spec, desired)
    case Err => assert Added(Idle(ReturnError), xc, writes, log) == [];
    case Ok(false) => SuccessAnswers(seen, UpToDate, o, origins, xc, writes, log);
    case Ok(true) => ReplaceAnswers(seen, origins, o.resourceVersion, xc, writes, log);
  }

  lemma GetAnswers(cr: CR, found: DiscoveryResult, seen: CR, xc: nat -> XcReply, writes: nat -> bool, log: seq<Exchange>)
    requires seen == cr.(status := seen.status)
    ensures var pc := Getting(seen, Sent(cr, found)); var added := Added(pc, xc, writes, log);
            && added != [] && added[0].XcExchange? && added[0].call == GetPool(XcKey(cr.spec.xcNamespace, cr.id.name))
            && AfterGet(cr, found, seen, added[0].reply, added[1..], ResultOf(pc, xc, writes, log))
  {
    var pc, reply := Getting(seen, Sent(cr, found)), xc(|log|);
    OneMoreCall(pc, xc, writes, log);
    var log' := log + [XcExchange(XcRequest(pc), reply)];
    if reply.Got? {
      ComparisonAnswers(cr, found, seen, reply.found, xc, writes, log');
    } else if reply == Failed(NotFound) {
      PayloadIsSent(cr.spec, Sent(cr, found));
      CreateAnswers(seen, Sent(cr, found), xc, writes, log');
    } else {
      FailureAnswers(seen, ErrorIn(reply), GetOp, CreateFailed, xc, writes, log');
    }
  }

  lemma DeletionAnswers(cr: CR, found: DiscoveryResult, permitted: bool, xc: nat -> XcReply, writes: nat -> bool, log: seq<Exchange>)
    requires cr.deleting
    ensures var pc := Start(Some(cr), found, permitted);
            AnswersDeletion(cr, Added(pc, xc, writes, log), ResultOf(pc, xc, writes, log))
  {
    var pc, reply := Start(Some(cr), found, permitted), xc(|log|);
    if pc.WritingObject? {
      LastWrite(pc, xc, writes, log);
    } else if pc.Deleting? {
      OneMoreCall(pc, xc, writes, log);
      var log' := log + [XcExchange(XcRequest(pc), reply)];
      if reply.Deleted? || reply == Failed(NotFound) {
        LastWrite(AfterXc(pc, reply), xc, writes, log');
      } else {
        FailureAnswers(cr, ErrorIn(reply), DeleteOp, DeleteFailed, xc, writes, log');
      }
    }
  }

  lemma LiveAnswers(cr: CR, found: DiscoveryResult, permitted: bool, xc: nat -> XcReply, writes: nat -> bool, log: seq<Exchange>)
    requires !cr.deleting && CLEANUP in cr.finalizers
    ensures var pc := Start(Some(cr), found, permitted);
            AnswersLive(cr, found, permitted, Added(pc, xc, writes, log), ResultOf(pc, xc, writes, log))
  {
    var pc := Start(Some(cr), found, permitted);
    var seen := cr.(status := cr.status.(discovered := if Discovers(cr) then found.discovered else cr.status.discovered));
    assert IsSeen(cr, found, seen);
    assert Discovers(cr) <==> HasDiscover(cr.spec);
    if Discovers(cr) && !found.allResolved {
      LastWrite(pc, xc, writes, log);
    } else if !permitted {
      FailureAnswers(seen, OtherError, Validate, CreateFailed, xc, writes, log);
    } else {
      GetAnswers(cr, found, seen, xc, writes, log);
    }
  }

  /** Every reconcile of every stored pool, whatever discovery found and the servers answer. */
  lemma EveryReconcileAnswers(cr: CR, found: DiscoveryResult, permitted: bool, xc: nat -> XcReply, writes: nat -> bool, log: seq<Exchange>)
    ensures var pc := Start(Some(cr), found, permitted);
            Answers(cr, found, permitted, Added(pc, xc, writes, log), ResultOf(pc, xc, writes, log))
  {
    if cr.deleting {
      DeletionAnswers(cr, found, permitted, xc, writes, log);
    } else if CLEANUP !in cr.finalizers {
      LastWrite(Start(Some(cr), found, permitted), xc, writes, log);
    } else {
      LiveAnswers(cr, found, permitted, xc, writes, log);
    }
  }

  // ----- What follows -----

  /** After the GET at most one write to XC and one status report follow. */
  lemma AfterGetWritesNoObject(cr: CR, found: DiscoveryResult, seen: CR, reply: XcReply, rest: seq<Exchange>, result: Reconciler.Result)
    requires AfterGet(cr, found, seen, reply, rest, result)
    ensures forall e | e in rest :: !e.ObjectWrite?
  {
    if |rest| == 2 {
      assert rest == [rest[0]] + rest[1..];
      assert rest[1..] == [rest[1]];
    }
  }

  lemma LiveWritesNoObject(cr: CR, found: DiscoveryResult, permitted: bool, added: seq<Exchange>, result: Reconciler.Result)
    requires AnswersLive(cr, found, permitted, added, result)
    ensures forall e | e in added :: !e.ObjectWrite?
  {
    if !(Discovers(cr) && !found.allResolved) && permitted {
      var seen :| IsSeen(cr, found, seen) && AfterGet(cr, found, seen, added[0].reply, added[1..], result);
      AfterGetWritesNoObject(cr, found, seen, added[0].reply, added[1..], result);
      assert added == [added[0]] + added[1..];
    }
  }

  /** The object written back: nothing but its finalizers changed, none of them but the operator's, which is there exactly while the pool is not being deleted. */
  predicate KeepsOtherFinalizers(cr: CR, w: CR) {
    && (forall f | f in w.finalizers + cr.finalizers && f != "xc.f5.com/cleanup" :: f in w.finalizers && f in cr.finalizers)
    && ("xc.f5.com/cleanup" in w.finalizers <==> !cr.deleting)
    && w == cr.(finalizers := w.finalizers)
  }

  lemma OtherFinalizersAreKept(cr: CR, found: DiscoveryResult, permitted: bool, xc: nat -> XcReply, writes: nat -> bool, log: seq<Exchange>)
    ensures forall e | e in Added(Start(Some(cr), found, permitted), xc, writes, log) && e.ObjectWrite? :: KeepsOtherFinalizers(cr, e.cr)
  {
    EveryReconcileAnswers(cr, found, permitted, xc, writes, log);
    FinalizersInAnswers(cr, found, permitted, Added(Start(Some(cr), found, permitted), xc, writes, log),
                        ResultOf(Start(Some(cr), found, permitted), xc, writes, log));
  }

  lemma FinalizersInAnswers(cr: CR, found: DiscoveryResult, permitted: bool, added: seq<Exchange>, result: Reconciler.Result)
    requires Answers(cr, found, permitted, added, result)
    ensures forall e | e in added && e.ObjectWrite? :: KeepsOtherFinalizers(cr, e.cr)
  {
    if !cr.deleting && CLEANUP in cr.finalizers {
      LiveWritesNoObject(cr, found, permitted, added, result);
    } else if |added| == 2 {
      assert added == [added[0]] + added[1..] && added[1..] == [added[1]];
    }
  }

  /** A reconcile whose first call to XC fails, other than by finding nothing, makes one report and follows the error table. */
  lemma FirstFailureIsReported(cr: CR, found: DiscoveryResult, permitted: bool, xc: nat -> XcReply, writes: nat -> bool, log: seq<Exchange>, e: XcError)
    requires var added := Added(Start(Some(cr), found, permitted), xc, writes, log);
             added != [] && added[0].XcExchange? && added[0].reply == Failed(e) && e != NotFound
    ensures var pc := Start(Some(cr), found, permitted);
            var added, result := Added(pc, xc, writes, log), ResultOf(pc, xc, writes, log);
            && |added| == 2 && added[1].StatusWrite?
            && var w := added[1].cr.status;
               && w.synced.Some? && !w.synced.value.status && w.synced.value.observedGeneration == w.observedGeneration == cr.generation
               && SameIdentity(cr.status, w)
               && match e
                  case AuthError =>
                    w.synced.value.reason == AuthFailure && w.ready == Some(Condition(false, AuthFailure, cr.generation)) && result == Finished
                  case ConflictError => w.synced.value.reason == Conflict && w.ready == cr.status.ready && result == Requeue
                  case RateLimitedError => w.synced.value.reason == RateLimited && w.ready == cr.status.ready && result == RequeueAfter(60)
                  case ServerFailure => w.synced.value.reason == ServerErrorSeen && w.ready == cr.status.ready && result == RequeueAfter(30)
                  case OtherError =>
                    && w.synced.value.reason == (if cr.deleting then DeleteFailed else CreateFailed)
                    && w.ready == cr.status.ready && result == RequeueAfter(10)
  {
    EveryReconcileAnswers(cr, found, permitted, xc, writes, log);
    var pc := Start(Some(cr), found, permitted);
    FailureInAnswers(cr, found, permitted, Added(pc, xc, writes, log), ResultOf(pc, xc, writes, log), e);
  }

  lemma FailureInAnswers(cr: CR, found: DiscoveryResult, permitted: bool, added: seq<Exchange>, result: Reconciler.Result, e: XcError)
    requires Answers(cr, found, permitted, added, result)
    requires added != [] && added[0].XcExchange? && added[0].reply == Failed(e) && e != NotFound
    ensures exists seen: CR ::
              && seen == cr.(status := seen.status) && SameIdentity(cr.status, seen.status) && seen.status.ready == cr.status.ready
              && EndsInFailure(seen, e, if cr.deleting then DeleteFailed else CreateFailed, added[1..], result)
  {
    if !cr.deleting {
      var seen :| IsSeen(cr, found, seen) && AfterGet(cr, found, seen, added[0].reply, added[1..], result);
      assert EndsInFailure(seen, e, CreateFailed, added[1..], result);
    } else {
      assert EndsInFailure(cr, e, DeleteFailed, added[1..], result);
    }
  }

  predicate WritesPool(e: Exchange) {
    e.XcExchange? && (e.call.CreatePool? || e.call.ReplacePool?)
  }

  function SpecSent(e: Exchange): Json
    requires WritesPool(e)
  {
    e.call.spec
  }

  lemma AfterGetCarriesPayload(cr: CR, found: DiscoveryResult, seen: CR, reply: XcReply, rest: seq<Exchange>, result: Reconciler.Result)
    requires AfterGet(cr, found, seen, reply, rest, result)
    ensures forall e | e in rest && WritesPool(e) :: IsPayload(SpecSent(e), cr.spec, Sent(cr, found))
  {
    if |rest| == 2 {
      assert rest == [rest[0]] + rest[1..];
      assert rest[1..] == [rest[1]];
    }
  }

  lemma LiveCarriesPayload(cr: CR, found: DiscoveryResult, permitted: bool, added: seq<Exchange>, result: Reconciler.Result)
    requires AnswersLive(cr, found, permitted, added, result)
    ensures forall e | e in added && WritesPool(e) :: IsPayload(SpecSent(e), cr.spec, Sent(cr, found))
  {
    if !(Discovers(cr) && !found.allResolved) && permitted {
      var seen :| IsSeen(cr, found, seen) && AfterGet(cr, found, seen, added[0].reply, added[1..], result);
      AfterGetCarriesPayload(cr, found, seen, added[0].reply, added[1..], result);
      assert added == [added[0]] + added[1..];
    }
  }

  lemma AnswersCarryPayload(cr: CR, found: DiscoveryResult, permitted: bool, added: seq<Exchange>, result: Reconciler.Result)
    requires Answers(cr, found, permitted, added, result)
    ensures forall e | e in added && WritesPool(e) :: IsPayload(SpecSent(e), cr.spec, Sent(cr, found))
  {
    if !cr.deleting && CLEANUP in cr.finalizers {
      LiveCarriesPayload(cr, found, permitted, added, result);
    } else if |added| == 2 {
      assert added == [added[0]] + added[1..] && added[1..] == [added[1]];
    }
  }

  lemma PoolWritesCarryPayload(cr: CR, found: DiscoveryResult, permitted: bool, xc: nat -> XcReply, writes: nat -> bool, log: seq<Exchange>)
    ensures forall e | e in Added(Start(Some(cr), found, permitted), xc, writes, log) && WritesPool(e) ::
              IsPayload(SpecSent(e), cr.spec, Sent(cr, found))
  {
    EveryReconcileAnswers(cr, found, permitted, xc, writes, log);
    AnswersCarryPayload(cr, found, permitted, Added(Start(Some(cr), found, permitted), xc, writes, log),
                        ResultOf(Start(Some(cr), found, permitted), xc, writes, log));
  }

  lemma AskedOnlyWhenComplete(cr: CR, found: DiscoveryResult, permitted: bool, xc: nat -> XcReply, writes: nat -> bool, log: seq<Exchange>)
    requires Discovers(cr) && !found.allResolved
    ensures forall e | e in Added(Start(Some(cr), found, permitted), xc, writes, log) && e.XcExchange? :: e.call.DeletePool?
  {
    EveryReconcileAnswers(cr, found, permitted, xc, writes, log);
  }

  /** Origin server i of a sent document, if it has that many. */
  predicate SendsOrigin(j: Json, i: nat, origin: Json) {
    && j.JObj? && "origin_servers" in j.fields && j.fields["origin_servers"].JArr?
    && i < |j.fields["origin_servers"].elems| && j.fields["origin_servers"].elems[i] == origin
  }

  /**
   Every create or replace of a reconcile carries, at the position of each discover
   entry, the address found for the object that entry names; and at any other
   position the origin server as its user wrote it.
   */
  lemma DiscoveredOriginsAreSent(isIP: string -> bool, cluster: Cluster, cr: CR, permitted: bool, xc: nat -> XcReply, writes: nat -> bool, log: seq<Exchange>, i: nat)
    requires i < |cr.spec.originServers|
    ensures forall e | e in Added(Start(Some(cr), FoundFor(isIP, cluster, cr), permitted), xc, writes, log) && WritesPool(e) ::
              exists origin :: SendsOrigin(SpecSent(e), i, origin) &&
                match cr.spec.originServers[i].discover
                case None => IsOrigin(origin, cr.spec.originServers[i])
                case Some(d) => exists o, status :: IsEntry(isIP, cluster, cr.id.namespace, d, Some(o), status) && IsAddress(origin, o)
  {
    var found := FoundFor(isIP, cluster, cr);
    var servers := cr.spec.originServers;
    DiscoveryByItsFields(isIP, cluster, Pool(cr.id, cr.spec));
    PoolWritesCarryPayload(cr, found, permitted, xc, writes, log);
    forall e | e in Added(Start(Some(cr), found, permitted), xc, writes, log) && WritesPool(e)
      ensures exists origin :: SendsOrigin(SpecSent(e), i, origin) &&
                match servers[i].discover
                case None => IsOrigin(origin, servers[i])
                case Some(d) => exists o, status :: IsEntry(isIP, cluster, cr.id.namespace, d, Some(o), status) && IsAddress(origin, o)
    {
      var origin := SpecSent(e).fields["origin_servers"].elems[i];
      assert SendsOrigin(SpecSent(e), i, origin);
      if servers[i].discover.Some? {
        assert Discovers(cr);
        if !found.allResolved {
          AskedOnlyWhenComplete(cr, found, permitted, xc, writes, log);
          assert false;
        }
        var status :| IsEntry(isIP, cluster, cr.id.namespace, servers[i].discover.value, found.origins[i], status);
        assert found.origins[i].Some? && IsAddress(origin, found.origins[i].value);
        assert IsEntry(isIP, cluster, cr.id.namespace, servers[i].discover.value, Some(found.origins[i].value), status);
      }
    }
  }

  /** While the object of any entry does not resolve, no GET, POST or PUT is sent. */
  lemma NothingIsSentWhilePending(isIP: string -> bool, cluster: Cluster, cr: CR, permitted: bool, xc: nat -> XcReply, writes: nat -> bool, log: seq<Exchange>, i: nat)
    requires i < |cr.spec.originServers| && cr.spec.originServers[i].discover.Some?
    requires forall entry, status | IsEntry(isIP, cluster, cr.id.namespace, cr.spec.originServers[i].discover.value, entry, status) :: entry.None?
    ensures forall e | e in Added(Start(Some(cr), FoundFor(isIP, cluster, cr), permitted), xc, writes, log) && e.XcExchange? ::
              e.call.DeletePool?
  {
    var found := FoundFor(isIP, cluster, cr);
    DiscoveryByItsFields(isIP, cluster, Pool(cr.id, cr.spec));
    var status :| IsEntry(isIP, cluster, cr.id.namespace, cr.spec.originServers[i].discover.value, found.origins[i], status);
    assert found.origins[i].None?;
    assert Discovers(cr) && !found.allResolved;
    AskedOnlyWhenComplete(cr, found, permitted, xc, writes, log);
  }

  /** The references of a pool are permitted when each readable health check of its Kubernetes namespace is in no, in its own, or in the shared XC namespace. */
  lemma PermittedByFields(refs: RefView, cr: CR)
    ensures RefsPermitted(refs, cr) <==>
              forall i | 0 <= i < |cr.spec.healthChecks| && Name(cr.id.namespace, cr.spec.healthChecks[i].name) in refs.healthChecks ::
                refs.healthChecks[Name(cr.id.namespace, cr.spec.healthChecks[i].name)] in {"", cr.spec.xcNamespace, "shared"}
  {
    var all := HealthCheckRefs(cr.spec.healthChecks);
    var parent := Parent(cr.id.namespace, cr.spec.xcNamespace);
    forall i | 0 <= i < |cr.spec.healthChecks|
      ensures Permitted(refs, parent, all[i]) <==>
                (Name(cr.id.namespace, cr.spec.healthChecks[i].name) in refs.healthChecks ==>
                   refs.healthChecks[Name(cr.id.namespace, cr.spec.healthChecks[i].name)] in {"", cr.spec.xcNamespace, "shared"})
    {
    }
  }
}
