/**
 The XC API as the reconciler sees it: typed errors (internal/xcclient/errors.go),
 one object per (namespace, name), and calls that may fail before or after they
 took effect.
 */
module XcApi {
  import opened Wrappers
  import opened Json
  import opened PoolDecoding
  import Diff

  datatype XcError = NotFound | AuthError | ConflictError | RateLimitedError | ServerFailure | OtherError

  /** Which statuses each error stands for. */
  predicate IsErrorFor(status: nat, e: XcError) {
    match e
    case NotFound => status == 404
    case AuthError => status in {401, 403}
    case ConflictError => status == 409
    case RateLimitedError => status == 429
    case ServerFailure => status >= 500
    case OtherError => status < 500 && status !in {401, 403, 404, 409, 429}
  }

  function StatusToError(status: nat): (e: XcError)
    ensures IsErrorFor(status, e)
  {
    if status == 404 then NotFound
    else if status == 401 || status == 403 then AuthError
    else if status == 409 then ConflictError
    else if status == 429 then RateLimitedError
    else if status >= 500 then ServerFailure
    else OtherError
  }

  datatype XcKey = XcKey(namespace: string, name: string)

  /**
   A stored object. `namespace` and `resourceVersion` are its metadata's as the client
   reads them, if its metadata decodes at all. The reference server always writes a
   spec; other servers may send an object without one.
   */
  datatype XcObject = XcObject(namespace: string, resourceVersion: string, uid: string, spec: Option<Json>, metadataDecodes: bool)

  /** The client can read the object into its types. */
  predicate Decodes(o: XcObject) {
    o.metadataDecodes && (o.spec.Some? ==> SpecDecodes(o.spec.value))
  }

  type Store = map<XcKey, XcObject>

  datatype XcCall =
    | GetPool(key: XcKey)
    | CreatePool(key: XcKey, spec: Json)
    | ReplacePool(key: XcKey, resourceVersion: string, spec: Json)
    | DeletePool(key: XcKey)

  datatype XcReply = Got(found: XcObject) | Deleted | Failed(error: XcError)

  /** `Fail(e, applied)`: the caller sees error e, and the call took effect iff `applied`. */
  datatype Fault = NoFault | Fail(error: XcError, applied: bool)

  const ORIGIN_POOLS := "origin_pools"

  function Uid(key: XcKey): string {
    "fake-uid-" + key.namespace + "-" + ORIGIN_POOLS + "-" + key.name
  }

  /** A successful answer fails in the client when the object in it does not decode. */
  function Answered(o: XcObject): XcReply {
    if Decodes(o) then Got(o) else Failed(OtherError)
  }

  /** The verbatim-storing server on one call; it takes only objects and `null` for specs. */
  function Apply(store: Store, call: XcCall): (Store, XcReply) {
    match call
    case GetPool(key) =>
      (store, if key in store then Answered(store[key]) else Failed(NotFound))
    case CreatePool(key, spec) =>
      if !Diff.IsMapDocument(spec) then (store, Failed(OtherError))
      else if key in store then (store, Failed(ConflictError))
      else
        var o := XcObject(key.namespace, "1", Uid(key), Some(spec), true);
        (store[key := o], Answered(o))
    case ReplacePool(key, rv, spec) =>
      if !Diff.IsMapDocument(spec) then (store, Failed(OtherError))
      else if key !in store then (store, Failed(NotFound))
      else
        var o := XcObject(key.namespace, rv, Uid(key), Some(spec), true);
        (store[key := o], Answered(o))
    case DeletePool(key) =>
      if key in store then (store - {key}, Deleted) else (store, Failed(NotFound))
  }

  function Serve(store: Store, call: XcCall, fault: Fault): (Store, XcReply) {
    var (store', reply) := Apply(store, call);
    match fault
    case NoFault => (store', reply)
    case Fail(e, applied) => (if applied then store' else store, Failed(e))
  }
}
