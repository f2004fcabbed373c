/**
 The API of `XcApi` is what the retrying client and the reference server give
 together (internal/xcclient/originpool.go on top of client.go, against
 testutil/fakeserver.go): every call, whatever the injected errors, the network and
 the cancellation, is one served call with at most one fault.
 */
module ApiRefinement {
  import opened Wrappers
  import opened Json
  import opened XcApi
  import opened FakeServer
  import opened RetryClient
  import PoolDecoding
  import Diff

  /** An origin pool object as the client decodes it. */
  function ObjectView(o: StoredObject): XcObject {
    XcObject(
      PoolDecoding.Text(o.metadata, "namespace"), PoolDecoding.Text(o.metadata, "resource_version"), o.uid, Some(o.spec),
      PoolDecoding.MetadataDecodes(o.metadata))
  }

  function StoreView(objects: map<ObjectKey, StoredObject>): Store {
    map k | k in objects && k.resource == ORIGIN_POOLS :: XcKey(k.namespace, k.name) := ObjectView(objects[k])
  }

  /** Request metadata; `resource_version` is left out when empty. */
  function Metadata(key: XcKey, resourceVersion: string): map<string, Json> {
    var named := map["name" := JStr(key.name), "namespace" := JStr(key.namespace)];
    if resourceVersion == "" then named else named["resource_version" := JStr(resourceVersion)]
  }

  function RequestFor(call: XcCall): Request {
    var ns, name := call.key.namespace, call.key.name;
    match call
    case GetPool(_) => Request(Get, ORIGIN_POOLS, ns, name, Absent)
    case CreatePool(key, spec) => Request(Post, ORIGIN_POOLS, ns, "", Document(Some(Metadata(key, "")), spec))
    case ReplacePool(key, rv, spec) => Request(Put, ORIGIN_POOLS, ns, name, Document(Some(Metadata(key, rv)), spec))
    case DeletePool(_) => Request(Delete, ORIGIN_POOLS, ns, name, Absent)
  }

  /** `do` decodes the answer to a create or replace itself; for a GET it hands the document on, a DELETE has no result. */
  function Accepts(call: XcCall): Content -> bool {
    (c: Content) => call.CreatePool? || call.ReplacePool? ==> c.One? && Decodes(ObjectView(c.stored))
  }

  /** What the result variable holds when an empty body leaves it untouched. */
  const UNTOUCHED := XcObject("", "", "", None, true)

  /** The CRUD methods of internal/xcclient/originpool.go on what `do` returns: a GET decodes the document, if there is one. */
  function ReplyFor(call: XcCall, result: CallResult): XcReply {
    match result
    case Cancelled => Failed(OtherError)
    case Returned(Failure(e)) => Failed(e)
    case Returned(Success(content)) =>
      if call.DeletePool? then Deleted
      else if call.GetPool? then
        if content.One? then Answered(ObjectView(content.stored)) else Failed(OtherError)
      else if content.One? then Got(ObjectView(content.stored))
      else Got(UNTOUCHED)
  }

  /** A status that neither claims success nor that the object is absent. */
  predicate PlainError(status: nat) {
    !(200 <= status < 300) && status != 404
  }

  ghost predicate HonestNetwork(net: nat -> Net) {
    forall k: nat :: net(k).Substitute? ==> PlainError(net(k).status)
  }

  predicate HonestErrors(s: ServerState, r: Request) {
    KeyOf(r) in s.errors ==> PlainError(s.errors[KeyOf(r)].status)
  }

  function PoolKey(key: XcKey): ObjectKey {
    ObjectKey(ORIGIN_POOLS, key.namespace, key.name)
  }

  lemma FoundView(objects: map<ObjectKey, StoredObject>, key: XcKey)
    ensures PoolKey(key) in objects <==> key in StoreView(objects)
    ensures PoolKey(key) in objects ==> StoreView(objects)[key] == ObjectView(objects[PoolKey(key)])
  {
    if PoolKey(key) in objects {
      assert PoolKey(key).resource == ORIGIN_POOLS;
    }
  }

  lemma UpdatedView(objects: map<ObjectKey, StoredObject>, key: XcKey, o: StoredObject)
    ensures StoreView(objects[PoolKey(key) := o]) == StoreView(objects)[key := ObjectView(o)]
  {
    var objects' := objects[PoolKey(key) := o];
    forall other: XcKey
      ensures other in StoreView(objects') <==> other in StoreView(objects)[key := ObjectView(o)]
      ensures other in StoreView(objects') ==> StoreView(objects')[other] == StoreView(objects)[key := ObjectView(o)][other]
    {
      FoundView(objects, other);
      FoundView(objects', other);
    }
  }

  lemma RemovedView(objects: map<ObjectKey, StoredObject>, key: XcKey)
    ensures StoreView(objects - {PoolKey(key)}) == StoreView(objects) - {key}
  {
    var objects' := objects - {PoolKey(key)};
    forall other: XcKey
      ensures other in StoreView(objects') <==> other in StoreView(objects) - {key}
      ensures other in StoreView(objects') ==> StoreView(objects')[other] == StoreView(objects)[other]
    {
      FoundView(objects, other);
      FoundView(objects', other);
    }
  }

  /** What the server stores for a create or replace is the object the API promises. */
  lemma StoredAsPromised(call: XcCall)
    requires call.CreatePool? || call.ReplacePool?
    ensures var k := ObjectKey(ORIGIN_POOLS, call.key.namespace, call.key.name);
            && (call.CreatePool? ==> CreatedName(RequestFor(call)) == call.key.name)
            && ObjectView(Stored(RequestFor(call), k, call.CreatePool?))
               == XcObject(call.key.namespace, if call.CreatePool? then "1" else call.resourceVersion, Uid(call.key), Some(call.spec), true)
  {
    assert |"name"| == 4 && |"namespace"| == 9 && |"resource_version"| == 16;
    assert |"labels"| == 6 && |"annotations"| == 11 && |"description"| == 11 && |"disable"| == 7 && |"uid"| == 3;
  }

  predicate Implements(objects: map<ObjectKey, StoredObject>, call: XcCall) {
    var (objects', response) := Dispatch(objects, RequestFor(call));
    Apply(StoreView(objects), call) == (StoreView(objects'), Answer(call, response))
  }

  function Answer(call: XcCall, response: Response): XcReply {
    ReplyFor(call, Returned(OutcomeOf(response, Accepts(call))))
  }

  lemma Answers(call: XcCall, o: StoredObject)
    ensures !call.DeletePool? ==> Answer(call, Response(200, One(o))) == Answered(ObjectView(o))
    ensures call.DeletePool? ==> Answer(call, Response(200, Nothing)) == Deleted
    ensures Answer(call, Response(400, Nothing)) == Failed(OtherError)
    ensures Answer(call, Response(404, Nothing)) == Failed(NotFound)
    ensures Answer(call, Response(409, Nothing)) == Failed(ConflictError)
  {
  }

  lemma CreateIsImplemented(objects: map<ObjectKey, StoredObject>, call: XcCall)
    requires call.CreatePool?
    ensures Implements(objects, call)
  {
    var k, r := PoolKey(call.key), RequestFor(call);
    var o := Stored(r, k, true);
    StoredAsPromised(call);
    assert Dispatch(objects, r) ==
           if !Diff.IsMapDocument(call.spec) then (objects, Response(400, Nothing))
           else if k in objects then (objects, Response(409, Nothing))
           else (objects[k := o], Response(200, One(o)));
    CreateMatches(objects, call.key, call.spec, o);
  }

  lemma CreateMatches(objects: map<ObjectKey, StoredObject>, key: XcKey, spec: Json, o: StoredObject)
    requires ObjectView(o) == XcObject(key.namespace, "1", Uid(key), Some(spec), true)
    ensures Apply(StoreView(objects), CreatePool(key, spec))
         == var call := CreatePool(key, spec);
            if !Diff.IsMapDocument(spec) then (StoreView(objects), Answer(call, Response(400, Nothing)))
            else if PoolKey(key) in objects then (StoreView(objects), Answer(call, Response(409, Nothing)))
            else (StoreView(objects[PoolKey(key) := o]), Answer(call, Response(200, One(o))))
  {
    FoundView(objects, key);
    UpdatedView(objects, key, o);
    Answers(CreatePool(key, spec), o);
  }

  lemma ReplaceIsImplemented(objects: map<ObjectKey, StoredObject>, call: XcCall)
    requires call.ReplacePool?
    ensures Implements(objects, call)
  {
    var k, r := PoolKey(call.key), RequestFor(call);
    var o := Stored(r, k, false);
    StoredAsPromised(call);
    assert Dispatch(objects, r) ==
           if !Diff.IsMapDocument(call.spec) then (objects, Response(400, Nothing))
           else if k !in objects then (objects, Response(404, Nothing))
           else (objects[k := o], Response(200, One(o)));
    ReplaceMatches(objects, call.key, call.resourceVersion, call.spec, o);
  }

  lemma ReplaceMatches(objects: map<ObjectKey, StoredObject>, key: XcKey, rv: string, spec: Json, o: StoredObject)
    requires ObjectView(o) == XcObject(key.namespace, rv, Uid(key), Some(spec), true)
    ensures Apply(StoreView(objects), ReplacePool(key, rv, spec))
         == var call := ReplacePool(key, rv, spec);
            if !Diff.IsMapDocument(spec) then (StoreView(objects), Answer(call, Response(400, Nothing)))
            else if PoolKey(key) !in objects then (StoreView(objects), Answer(call, Response(404, Nothing)))
            else (StoreView(objects[PoolKey(key) := o]), Answer(call, Response(200, One(o))))
  {
    FoundView(objects, key);
    UpdatedView(objects, key, o);
    Answers(ReplacePool(key, rv, spec), o);
  }

  lemma GetIsImplemented(objects: map<ObjectKey, StoredObject>, call: XcCall)
    requires call.GetPool? && call.key.name != ""
    ensures Implements(objects, call)
  {
    var k := PoolKey(call.key);
    var o := if k in objects then objects[k] else StoredObject(map[], "", JNull);
    FoundView(objects, call.key);
    Answers(call, o);
    assert Dispatch(objects, RequestFor(call)) == (objects, if k in objects then Response(200, One(o)) else Response(404, Nothing));
  }

  lemma DeleteIsImplemented(objects: map<ObjectKey, StoredObject>, call: XcCall)
    requires call.DeletePool?
    ensures Implements(objects, call)
  {
    var k, o := PoolKey(call.key), StoredObject(map[], "", JNull);
    FoundView(objects, call.key);
    RemovedView(objects, call.key);
    Answers(call, o);
    assert Dispatch(objects, RequestFor(call)) == if k in objects then (objects - {k}, Response(200, Nothing)) else (objects, Response(404, Nothing));
  }

  /** The server's handlers are the API's calls. */
  lemma DispatchIsApply(objects: map<ObjectKey, StoredObject>, call: XcCall)
    requires call.key.name != ""
    ensures Implements(objects, call)
  {
    match call
    case GetPool(_) => GetIsImplemented(objects, call);
    case CreatePool(_, _) => CreateIsImplemented(objects, call);
    case ReplacePool(_, _, _) => ReplaceIsImplemented(objects, call);
    case DeletePool(_) => DeleteIsImplemented(objects, call);
  }

  predicate ServedAs(s: ServerState, call: XcCall, fault: Fault, s': ServerState, t: Trace) {
    && (fault.Fail? ==> fault.error != NotFound)
    && Serve(StoreView(s.objects), call, fault) == (StoreView(s'.objects), ReplyFor(call, t.result))
  }

  /** A request that reaches the server: an injected error without effect, or the call itself. */
  lemma DeliveredIsServed(s: ServerState, call: XcCall) returns (fault: Fault)
    requires call.key.name != "" && HonestErrors(s, RequestFor(call))
    ensures var (s', response) := Handled(s, RequestFor(call));
            && (fault.Fail? ==> fault.error != NotFound && !fault.applied)
            && (fault.Fail? <==> KeyOf(RequestFor(call)) in s.errors)
            && Serve(StoreView(s.objects), call, fault) == (StoreView(s'.objects), Answer(call, response))
  {
    DispatchIsApply(s.objects, call);
    fault := if KeyOf(RequestFor(call)) in s.errors then Fail(StatusToError(s.errors[KeyOf(RequestFor(call))].status), false) else NoFault;
  }

  /** The request takes its effect, but the answer gets lost. */
  lemma LostReplyIsServed(s: ServerState, call: XcCall) returns (fault: Fault)
    requires call.key.name != "" && HonestErrors(s, RequestFor(call))
    ensures fault.Fail? && fault.error == OtherError
    ensures Serve(StoreView(s.objects), call, fault) == (StoreView(Handled(s, RequestFor(call)).0.objects), Failed(OtherError))
  {
    var delivered := DeliveredIsServed(s, call);
    fault := Fail(OtherError, delivered.NoFault?);
  }

  /** Handling keeps injected errors plain, and a 429 means nothing was done. */
  lemma HandlingStaysHonest(s: ServerState, r: Request, accepts: Content -> bool)
    requires HonestErrors(s, r)
    ensures var (s', response) := Handled(s, r);
            HonestErrors(s', r) && (IsRateLimited(OutcomeOf(response, accepts)) ==> s'.objects == s.objects)
  {
    DispatchNeverRateLimits(s.objects, r, accepts);
  }

  /** A single attempt, seen as a served call. */
  lemma AttemptIsServed(s: ServerState, call: XcCall, net: Net) returns (fault: Fault)
    requires call.key.name != ""
    requires HonestErrors(s, RequestFor(call)) && (net.Substitute? ==> PlainError(net.status))
    ensures var (s', o) := Attempt(s, RequestFor(call), Accepts(call), net);
            && (fault.Fail? ==> fault.error != NotFound)
            && Serve(StoreView(s.objects), call, fault) == (StoreView(s'.objects), ReplyFor(call, Returned(o)))
            && HonestErrors(s', RequestFor(call))
            && (IsRateLimited(o) ==> s'.objects == s.objects)
  {
    HandlingStaysHonest(s, RequestFor(call), Accepts(call));
    match net
    case Deliver => fault := DeliveredIsServed(s, call);
    case LoseRequest => fault := Fail(OtherError, false);
    case LoseReply => fault := LostReplyIsServed(s, call);
    case Substitute(status) => fault := Fail(StatusToError(status), false);
  }

  lemma {:induction false} AttemptsAreServed(s: ServerState, call: XcCall, net: nat -> Net, cancelled: nat -> bool, maxRetries: nat, outcomes: seq<Outcome>)
    returns (fault: Fault)
    requires |outcomes| <= maxRetries && call.key.name != ""
    requires HonestErrors(s, RequestFor(call)) && HonestNetwork(net)
    ensures var (s', t) := Attempts(s, RequestFor(call), Accepts(call), net, cancelled, maxRetries, outcomes); ServedAs(s, call, fault, s', t)
    decreases maxRetries - |outcomes|
  {
    var k := |outcomes|;
    if cancelled(k) {
      fault := Fail(OtherError, false);
    } else {
      var (s1, o) := Attempt(s, RequestFor(call), Accepts(call), net(k));
      fault := AttemptIsServed(s, call, net(k));
      if IsRateLimited(o) && k < maxRetries {
        fault := AttemptsAreServed(s1, call, net, cancelled, maxRetries, outcomes + [o]);
      }
    }
  }

  /**
   The refinement: one call of the retrying client on one origin pool, however often
   it was throttled, lost or cancelled, leaves the server's origin pools and returns
   an answer exactly as one call of the API would with some fault, and that fault is
   never a wrong "not found".
   */
  lemma EveryCallIsServedOnce(s: ServerState, call: XcCall, net: nat -> Net, cancelled: nat -> bool, maxRetries: nat) returns (fault: Fault)
    requires call.key.name != ""
    requires HonestErrors(s, RequestFor(call)) && HonestNetwork(net)
    ensures var (s', t) := Call(s, RequestFor(call), Accepts(call), net, cancelled, maxRetries); ServedAs(s, call, fault, s', t)
  {
    if cancelled(0) {
      fault := Fail(OtherError, false);
    } else {
      fault := AttemptsAreServed(s, call, net, cancelled, maxRetries, []);
    }
  }

  /**
   A negative retry limit sends nothing and is no error to `do`. To the operator it is
   an error of every GET, a deletion reported as done that never happened, and a create
   or replace reported as done with an empty object.
   */
  lemma NegativeLimitAnswers(s: ServerState, call: XcCall, net: nat -> Net, cancelled: nat -> bool, maxRetries: int)
    requires maxRetries < 0 && !cancelled(0)
    ensures var (s', t) := Call(s, RequestFor(call), Accepts(call), net, cancelled, maxRetries);
            && s' == s && t.outcomes == []
            && ReplyFor(call, t.result) == (if call.GetPool? then Failed(OtherError) else if call.DeletePool? then Deleted else Got(UNTOUCHED))
  {
  }

  /**
   For which limits a call is one served call at all: not for a negative one, unless the
   call is a GET or is cancelled before it starts.
   */
  lemma ServedExactlyWhen(s: ServerState, call: XcCall, net: nat -> Net, cancelled: nat -> bool, maxRetries: int)
    requires call.key.name != ""
    requires HonestErrors(s, RequestFor(call)) && HonestNetwork(net)
    ensures var (s', t) := Call(s, RequestFor(call), Accepts(call), net, cancelled, maxRetries);
            (exists fault :: ServedAs(s, call, fault, s', t)) <==> maxRetries >= 0 || call.GetPool? || cancelled(0)
  {
    var (s', t) := Call(s, RequestFor(call), Accepts(call), net, cancelled, maxRetries);
    if maxRetries >= 0 {
      var fault := EveryCallIsServedOnce(s, call, net, cancelled, maxRetries);
    } else if cancelled(0) || call.GetPool? {
      assert ServedAs(s, call, Fail(OtherError, false), s', t);
    } else {
      NegativeLimitAnswers(s, call, net, cancelled, maxRetries);
      forall fault
        ensures !ServedAs(s, call, fault, s', t)
      {
        NothingSentIsNotServed(StoreView(s.objects), call, fault);
      }
    }
  }

  /** No served call leaves the store alone and reports success of a deletion, or an empty object. */
  lemma NothingSentIsNotServed(store: Store, call: XcCall, fault: Fault)
    requires !call.GetPool?
    ensures Serve(store, call, fault) != (store, if call.DeletePool? then Deleted else Got(UNTOUCHED))
  {
    assert |Uid(call.key)| > 0;
    if call.DeletePool? && call.key in store {
      assert call.key !in store - {call.key};
    }
  }

  /** Where an error for this call is injected: under its method and the name in its URL, which a create has not. */
  predicate IsInjectionKey(call: XcCall, key: ErrorKey) {
    match call
    case GetPool(k) => key == ErrorKey(Get, "origin_pools", k.namespace, k.name)
    case CreatePool(k, _) => key == ErrorKey(Post, "origin_pools", k.namespace, "")
    case ReplacePool(k, _, _) => key == ErrorKey(Put, "origin_pools", k.namespace, k.name)
    case DeletePool(k) => key == ErrorKey(Delete, "origin_pools", k.namespace, k.name)
  }

  /**
   From status to reply: a call on whose operation the server answers every attempt
   with this status gives the reconciler the error the status stands for, after one
   request, or after all of them for 429, and takes no effect.
   */
  lemma InjectedStatusIsSeen(s: ServerState, call: XcCall, net: nat -> Net, cancelled: nat -> bool, maxRetries: nat, key: ErrorKey, status: nat)
    requires IsInjectionKey(call, key) && Injected(s, key, status, maxRetries + 1) && !(200 <= status < 300)
    requires forall i :: net(i) == Deliver && !cancelled(i)
    ensures var (s', t) := Call(s, RequestFor(call), Accepts(call), net, cancelled, maxRetries); var reply := ReplyFor(call, t.result);
            && reply.Failed? && IsErrorFor(status, reply.error)
            && |t.outcomes| == (if status == 429 then maxRetries + 1 else 1)
            && s'.objects == s.objects
  {
    InjectedAttempts(s, RequestFor(call), Accepts(call), net, cancelled, maxRetries, [], status);
    assert !cancelled(0);
  }
}
