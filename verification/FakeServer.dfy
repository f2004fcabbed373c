/**
 The in-repo reference server (internal/xcclient/testutil/fakeserver.go): an
 object store, a request log and a table of injected errors that count down.
 Timestamps are not modelled; a path is valid or not.
 */
module FakeServer {
  import opened Wrappers
  import opened Json
  import Diff

  datatype Method = Post | Get | Put | Delete | OtherMethod

  /** A request body after decoding: none, not decodable, or an object's metadata and spec. */
  datatype Body = Absent | Malformed | Document(metadata: Option<map<string, Json>>, spec: Json)

  datatype Request = Request(verb: Method, resource: string, namespace: string, name: string, body: Body)

  /** What reaches the handler: a request whose path and body can be read, or one turned down unseen. */
  datatype Incoming = InvalidPath | UnreadableBody | Readable(request: Request)

  datatype ObjectKey = ObjectKey(resource: string, namespace: string, name: string)

  datatype StoredObject = StoredObject(metadata: map<string, Json>, uid: string, spec: Json)

  /** Injected errors are keyed by the URL: for a POST the name part is empty. */
  datatype ErrorKey = ErrorKey(verb: Method, resource: string, namespace: string, name: string)

  datatype ErrorEntry = ErrorEntry(status: nat, remaining: int)

  datatype Content = Nothing | One(stored: StoredObject) | Many(objects: set<StoredObject>)

  datatype Response = Response(status: nat, content: Content)

  datatype ServerState = ServerState(
    objects: map<ObjectKey, StoredObject>,
    requests: seq<Request>,
    errors: map<ErrorKey, ErrorEntry>)

  function KeyOf(r: Request): ErrorKey {
    ErrorKey(r.verb, r.resource, r.namespace, r.name)
  }

  function FakeUid(key: ObjectKey): string {
    "fake-uid-" + key.namespace + "-" + key.resource + "-" + key.name
  }

  function MetadataOf(b: Body): map<string, Json> {
    if b.Document? && b.metadata.Some? then b.metadata.value else map[]
  }

  function SpecOf(b: Body): Json {
    if b.Document? then b.spec else JNull
  }

  /** The body decodes into the server's types: its spec, like its metadata, is an object or `null`. */
  predicate Acceptable(b: Body) {
    !b.Malformed? && (b.Document? ==> Diff.IsMapDocument(b.spec))
  }

  /** A POST without a name in the URL takes it from the body. */
  function CreatedName(r: Request): string {
    if r.name != "" then r.name
    else if "name" in MetadataOf(r.body) && MetadataOf(r.body)["name"].JStr? then MetadataOf(r.body)["name"].s
    else ""
  }

  function Stored(r: Request, key: ObjectKey, created: bool): StoredObject {
    var named := MetadataOf(r.body)["name" := JStr(key.name)]["namespace" := JStr(key.namespace)];
    StoredObject(if created then named["resource_version" := JStr("1")] else named, FakeUid(key), SpecOf(r.body))
  }

  /** The CRUD handlers, once no injected error intervenes. */
  function Dispatch(objects: map<ObjectKey, StoredObject>, r: Request): (map<ObjectKey, StoredObject>, Response) {
    var key := ObjectKey(r.resource, r.namespace, r.name);
    match r.verb
    case Post =>
      var created := key.(name := CreatedName(r));
      if !Acceptable(r.body) then (objects, Response(400, Nothing))
      else if created in objects then (objects, Response(409, Nothing))
      else (objects[created := Stored(r, created, true)], Response(200, One(Stored(r, created, true))))
    case Get =>
      if r.name == "" then
        (objects, Response(200, Many(set k | k in objects && k.resource == r.resource && k.namespace == r.namespace :: objects[k])))
      else if key in objects then (objects, Response(200, One(objects[key])))
      else (objects, Response(404, Nothing))
    case Put =>
      if !Acceptable(r.body) then (objects, Response(400, Nothing))
      else if key !in objects then (objects, Response(404, Nothing))
      else (objects[key := Stored(r, key, false)], Response(200, One(Stored(r, key, false))))
    case Delete =>
      if key in objects then (objects - {key}, Response(200, Nothing)) else (objects, Response(404, Nothing))
    case OtherMethod => (objects, Response(405, Nothing))
  }

  /** One fewer firing left; an entry at zero or below never runs out. */
  function CountDown(errors: map<ErrorKey, ErrorEntry>, key: ErrorKey): map<ErrorKey, ErrorEntry>
    requires key in errors
  {
    var e := errors[key];
    if e.remaining == 1 then errors - {key}
    else if e.remaining > 1 then errors[key := e.(remaining := e.remaining - 1)]
    else errors
  }

  function Handled(s: ServerState, r: Request): (ServerState, Response) {
    var logged := s.(requests := s.requests + [r]);
    if KeyOf(r) in s.errors then
      (logged.(errors := CountDown(s.errors, KeyOf(r))), Response(s.errors[KeyOf(r)].status, Nothing))
    else
      var (objects, response) := Dispatch(s.objects, r);
      (logged.(objects := objects), response)
  }

  /** Only readable requests are logged. */
  function Received(s: ServerState, i: Incoming): (ServerState, Response) {
    if i.Readable? then Handled(s, i.request) else (s, Response(400, Nothing))
  }

  class FakeXCServer {
    var objects: map<ObjectKey, StoredObject>
    var requests: seq<Request>
    var errors: map<ErrorKey, ErrorEntry>

    function State(): ServerState
      reads this
    {
      ServerState(objects, requests, errors)
    }

    constructor ()
      ensures State() == ServerState(map[], [], map[])
    {
      objects, requests, errors := map[], [], map[];
    }

    method InjectError(key: ErrorKey, status: nat, times: int)
      modifies this
      ensures State() == old(State()).(errors := old(errors)[key := ErrorEntry(status, if times == 0 then -1 else times)])
    {
      var remaining := times;
      if times == 0 {
        remaining := -1;
      }
      errors := errors[key := ErrorEntry(status, remaining)];
    }

    method Handle(i: Incoming) returns (response: Response)
      modifies this
      ensures (State(), response) == Received(old(State()), i)
    {
      if !i.Readable? {
        return Response(400, Nothing);
      }
      var r := i.request;
      requests := requests + [r];
      var key := KeyOf(r);
      if key in errors {
        var entry := errors[key];
        if entry.remaining > 0 {
          var left := entry.remaining - 1;
          errors := errors[key := entry.(remaining := left)];
          if left == 0 {
            errors := errors - {key};
            assert errors == old(errors) - {key};
          }
        }
        return Response(entry.status, Nothing);
      }
      match r.verb {
        case Post => response := HandleCreate(r);
        case Get => response := Dispatch(objects, r).1;
        case Put => response := HandleReplace(r);
        case Delete => response := HandleDelete(r);
        case OtherMethod => response := Response(405, Nothing);
      }
    }

    method HandleCreate(r: Request) returns (response: Response)
      requires r.verb.Post?
      modifies this`objects
      ensures (objects, response) == Dispatch(old(objects), r)
    {
      if !Acceptable(r.body) {
        return Response(400, Nothing);
      }
      var name := r.name;
      var metadata := MetadataOf(r.body);
      if name == "" && "name" in metadata && metadata["name"].JStr? {
        name := metadata["name"].s;
      }
      var key := ObjectKey(r.resource, r.namespace, name);
      if key in objects {
        return Response(409, Nothing);
      }
      metadata := metadata["name" := JStr(name)];
      metadata := metadata["namespace" := JStr(r.namespace)];
      metadata := metadata["resource_version" := JStr("1")];
      var stored := StoredObject(metadata, FakeUid(key), SpecOf(r.body));
      objects := objects[key := stored];
      return Response(200, One(stored));
    }

    method HandleReplace(r: Request) returns (response: Response)
      requires r.verb.Put?
      modifies this`objects
      ensures (objects, response) == Dispatch(old(objects), r)
    {
      var key := ObjectKey(r.resource, r.namespace, r.name);
      if !Acceptable(r.body) {
        return Response(400, Nothing);
      }
      if key !in objects {
        return Response(404, Nothing);
      }
      var metadata := MetadataOf(r.body);
      metadata := metadata["name" := JStr(r.name)];
      metadata := metadata["namespace" := JStr(r.namespace)];
      var stored := StoredObject(metadata, FakeUid(key), SpecOf(r.body));
      objects := objects[key := stored];
      return Response(200, One(stored));
    }

    method HandleDelete(r: Request) returns (response: Response)
      requires r.verb.Delete?
      modifies this`objects
      ensures (objects, response) == Dispatch(old(objects), r)
    {
      var key := ObjectKey(r.resource, r.namespace, r.name);
      if key !in objects {
        return Response(404, Nothing);
      }
      objects := objects - {key};
      return Response(200, Nothing);
    }
  }

  /** A stored object carries its name and namespace, and a new one version "1"; a list holds exactly the objects of its resource and namespace. */
  lemma StoredAndListed(objects: map<ObjectKey, StoredObject>, r: Request, key: ObjectKey, created: bool)
    ensures var m := Stored(r, key, created).metadata;
            && "name" in m && m["name"] == JStr(key.name) && "namespace" in m && m["namespace"] == JStr(key.namespace)
            && (created ==> "resource_version" in m && m["resource_version"] == JStr("1"))
    ensures Stored(r, key, created).spec == if r.body.Document? then r.body.spec else JNull
    ensures Stored(r, key, created).uid == "fake-uid-" + key.namespace + "-" + key.resource + "-" + key.name
    ensures r.verb.Get? && r.name == "" ==>
              var content := Dispatch(objects, r).1.content;
              content.Many? && forall o :: o in content.objects <==>
                exists k | k in objects :: k.resource == r.resource && k.namespace == r.namespace && objects[k] == o
  {
    assert |"name"| == 4 && |"namespace"| == 9 && |"resource_version"| == 16;
  }
}
