/**
 The drift comparison of internal/xcclient/diff.go. The methods work on raw
 documents and delete map keys in place as the source does; `Compare` is the
 reference they are proved against: it never sees raw text, only decoded trees.
 */
module Diff {
  import opened Wrappers
  import opened Json

  const SERVER_MANAGED_TOP_LEVEL: set<string> :=
    {"system_metadata", "status", "referring_objects", "create_form", "replace_form"}
  const SERVER_MANAGED_META_FIELDS: set<string> := {"uid", "resource_version"}
  const METADATA := "metadata"

  // ----- Reference definition on decoded trees -----

  /** A document the decoder accepts as a (possibly nil) map. */
  predicate IsMapDocument(j: Json) {
    j.JNull? || j.JObj?
  }

  function StripTop(j: Json): Json {
    if j.JObj? then JObj(j.fields - SERVER_MANAGED_TOP_LEVEL) else j
  }

  function StripMeta(j: Json): Json {
    if j.JObj? && METADATA in j.fields && j.fields[METADATA].JObj?
    then JObj(j.fields[METADATA := JObj(j.fields[METADATA].fields - SERVER_MANAGED_META_FIELDS)])
    else j
  }

  function Canonical(j: Json): Json {
    StripMeta(StripTop(j))
  }

  /** What the comparison decides: an error, or whether the canonical trees differ. */
  function Compare(current: Json, desired: Json): Result<bool> {
    if IsMapDocument(current) && IsMapDocument(desired)
    then Ok(Canonical(current) != Canonical(desired))
    else Err
  }

  /** An answer without a spec is no document, and so no map. */
  function CompareStored(current: Option<Json>, desired: Json): Result<bool> {
    if current.None? then Err else Compare(current.value, desired)
  }

  // ----- The source's procedure -----

  /** A decoded Go `map[string]json.RawMessage`; `None` is the nil map. */
  class RawObject {
    var fields: Option<map<string, Raw>>

    constructor (fields: Option<map<string, Raw>>)
      ensures this.fields == fields
    {
      this.fields := fields;
    }
  }

  function RawMembers(ms: seq<Member>): map<string, Raw> {
    if ms == [] then map[]
    else RawMembers(ms[..|ms| - 1])[ms[|ms| - 1].name := ms[|ms| - 1].value]
  }

  function DecodeAll(m: map<string, Raw>): map<string, Json> {
    map k | k in m :: Decode(m[k])
  }

  function DecodeFields(f: Option<map<string, Raw>>): Json {
    if f.None? then JNull else JObj(DecodeAll(f.value))
  }

  /** Decoding one level at a time, then the values, is decoding the document. */
  lemma {:induction false} OneLevelAtATime(ms: seq<Member>)
    ensures DecodeAll(RawMembers(ms)) == DecodeMembers(ms)
  {
    if ms != [] {
      OneLevelAtATime(ms[..|ms| - 1]);
    }
  }

  method UnmarshalRaw(b: Raw) returns (m: RawObject?)
    ensures m == null <==> !IsMapDocument(Decode(b))
    ensures m != null ==> fresh(m) && DecodeFields(m.fields) == Decode(b)
  {
    if b.RNull? {
      m := new RawObject(None);
    } else if b.RObj? {
      OneLevelAtATime(b.members);
      m := new RawObject(Some(RawMembers(b.members)));
    } else {
      m := null;
    }
  }

  /** `delete(m, k)` for every k, in whatever order the range statement yields them. */
  method DeleteKeys(m: RawObject, keys: set<string>)
    modifies m
    ensures m.fields == if old(m.fields).None? then None else Some(old(m.fields).value - keys)
  {
    var todo := keys;
    while todo != {}
      invariant todo <= keys
      invariant m.fields.None? <==> old(m.fields).None?
      invariant m.fields.Some? ==> m.fields.value == old(m.fields).value - (keys - todo)
    {
      var k :| k in todo;
      if m.fields.Some? {
        m.fields := Some(m.fields.value - {k});
      }
      todo := todo - {k};
    }
    assert keys - todo == keys;
  }

  method StripServerManaged(m: RawObject)
    modifies m
    ensures DecodeFields(m.fields) == StripTop(old(DecodeFields(m.fields)))
  {
    DeleteKeys(m, SERVER_MANAGED_TOP_LEVEL);
  }

  method StripMetaFields(m: RawObject)
    modifies m
    ensures DecodeFields(m.fields) == StripMeta(old(DecodeFields(m.fields)))
  {
    if m.fields.None? || METADATA !in m.fields.value {
      return;
    }
    var raw := m.fields.value[METADATA];
    var meta := UnmarshalRaw(raw);
    if meta == null {
      return;
    }
    DeleteKeys(meta, SERVER_MANAGED_META_FIELDS);
    var b := Marshal(meta);
    ghost var before := m.fields.value;
    m.fields := Some(m.fields.value[METADATA := b]);
    assert DecodeAll(m.fields.value) == DecodeAll(before)[METADATA := Decode(b)];
    if Decode(raw).JObj? {
      assert Decode(b) == JObj(Decode(raw).fields - SERVER_MANAGED_META_FIELDS);
    } else {
      assert DecodeAll(m.fields.value) == DecodeAll(before);
    }
  }

  /** Re-encodes the map; the member order is the encoder's choice. */
  method Marshal(m: RawObject) returns (b: Raw)
    ensures Decode(b) == DecodeFields(m.fields)
  {
    if m.fields.None? {
      return RNull;
    }
    var entries := m.fields.value;
    var ms, todo := [], entries.Keys;
    while todo != {}
      invariant todo <= entries.Keys
      invariant DecodeMembers(ms) == DecodeAll(map k | k in entries && k !in todo :: entries[k])
    {
      var k :| k in todo;
      ghost var before := ms;
      ms := ms + [Member(k, entries[k])];
      assert ms[..|ms| - 1] == before;
      todo := todo - {k};
    }
    assert (map k | k in entries && k !in todo :: entries[k]) == entries;
    b := RObj(ms);
  }

  method Normalise(m: RawObject) returns (v: Json)
    ensures v == DecodeFields(m.fields)
  {
    var b := Marshal(m);
    v := Decode(b);
  }

  /** `current` is absent when the server sent no spec: decoding the empty text fails. */
  method NeedsUpdate(current: Option<Raw>, desired: Raw) returns (r: Result<bool>)
    ensures r == CompareStored(if current.None? then None else Some(Decode(current.value)), Decode(desired))
  {
    if current.None? {
      return Err;
    }
    var currentMap := UnmarshalRaw(current.value);
    if currentMap == null {
      return Err;
    }
    var desiredMap := UnmarshalRaw(desired);
    if desiredMap == null {
      return Err;
    }
    StripServerManaged(currentMap);
    StripServerManaged(desiredMap);
    StripMetaFields(currentMap);
    StripMetaFields(desiredMap);
    var currentNorm := Normalise(currentMap);
    var desiredNorm := Normalise(desiredMap);
    r := Ok(currentNorm != desiredNorm);
  }

  // ----- What the comparison sees -----

  /** What one object shows to the comparison under a name that is not stripped. */
  predicate SameMetadata(a: Json, b: Json) {
    if a.JObj? && b.JObj?
    then a.fields - SERVER_MANAGED_META_FIELDS == b.fields - SERVER_MANAGED_META_FIELDS
    else a == b
  }

  predicate AgreeOn(a: map<string, Json>, b: map<string, Json>, k: string) {
    && (k in a <==> k in b)
    && (k in a && k in b ==> if k == METADATA then SameMetadata(a[k], b[k]) else a[k] == b[k])
  }

  /**
   Two objects compare equal exactly when they agree under every name outside the
   five server-managed ones, where `metadata` objects are compared without `uid`
   and `resource_version`. In particular an absent `metadata` is not an empty one.
   */
  lemma ComparesEqualExactlyWhen(a: map<string, Json>, b: map<string, Json>)
    ensures Compare(JObj(a), JObj(b)) == Ok(false)
       <==> forall k | k !in SERVER_MANAGED_TOP_LEVEL :: AgreeOn(a, b, k)
  {
    var ca, cb := Canonical(JObj(a)).fields, Canonical(JObj(b)).fields;
    MetadataIsKept();
    forall k | k !in SERVER_MANAGED_TOP_LEVEL
      ensures AgreeOn(a, b, k) <==> ((k in ca <==> k in cb) && (k in ca && k in cb ==> ca[k] == cb[k]))
    {
      if k == METADATA && k in a && k in b {
        assert ca[k] == if a[k].JObj? then JObj(a[k].fields - SERVER_MANAGED_META_FIELDS) else a[k];
        assert cb[k] == if b[k].JObj? then JObj(b[k].fields - SERVER_MANAGED_META_FIELDS) else b[k];
      }
    }
    if forall k | k !in SERVER_MANAGED_TOP_LEVEL :: AgreeOn(a, b, k) {
      assert ca == cb;
    }
  }

  lemma MetadataIsKept()
    ensures METADATA !in SERVER_MANAGED_TOP_LEVEL
  {
    assert |METADATA| == 8;
    assert METADATA[0] == 'm';
  }

  /** Stripping twice is stripping once, and the two strips can be done in either order. */
  lemma StripsAreIdempotentAndCommute(j: Json)
    ensures StripTop(StripTop(j)) == StripTop(j)
    ensures StripMeta(StripMeta(j)) == StripMeta(j)
    ensures StripTop(StripMeta(j)) == StripMeta(StripTop(j))
    ensures Canonical(Canonical(j)) == Canonical(j)
  {
    MetadataIsKept();
    if j.JObj? {
      var top := j.fields - SERVER_MANAGED_TOP_LEVEL;
      assert top - SERVER_MANAGED_TOP_LEVEL == top;
      if METADATA in j.fields && j.fields[METADATA].JObj? {
        var meta := j.fields[METADATA].fields - SERVER_MANAGED_META_FIELDS;
        assert meta - SERVER_MANAGED_META_FIELDS == meta;
        assert j.fields[METADATA := JObj(meta)][METADATA := JObj(meta)] == j.fields[METADATA := JObj(meta)];
        assert top[METADATA := JObj(meta)] == j.fields[METADATA := JObj(meta)] - SERVER_MANAGED_TOP_LEVEL;
        assert top[METADATA := JObj(meta)] - SERVER_MANAGED_TOP_LEVEL == top[METADATA := JObj(meta)];
        assert top[METADATA := JObj(meta)][METADATA := JObj(meta)] == top[METADATA := JObj(meta)];
      }
    }
  }

  /**
   On written documents without repeated names, "no update" is exactly: both are
   maps, and the documents would be equal up to member order once stripped. Member
   order never matters, and comparison against a third document cannot tell them apart.
   */
  lemma OrderNeverMatters(a: Raw, b: Raw, other: Raw)
    requires UniqueNames(a) && UniqueNames(b) && SameUpToOrder(a, b)
    ensures Compare(Decode(a), Decode(other)) == Compare(Decode(b), Decode(other))
    ensures Compare(Decode(other), Decode(a)) == Compare(Decode(other), Decode(b))
    ensures IsMapDocument(Decode(a)) ==> Compare(Decode(a), Decode(b)) == Ok(false)
  {
    DecodeIsOrderBlind(a, b);
  }

  /** "No update" is an equivalence on map documents; `null` is equivalent to no object, not even `{}`. */
  lemma NoUpdateIsAnEquivalence(a: Json, b: Json, c: Json)
    requires IsMapDocument(a) && IsMapDocument(b) && IsMapDocument(c)
    ensures Compare(a, a) == Ok(false)
    ensures Compare(a, b) == Compare(b, a)
    ensures Compare(a, b) == Ok(false) && Compare(b, c) == Ok(false) ==> Compare(a, c) == Ok(false)
    ensures Compare(a, Canonical(a)) == Ok(false)
    ensures Compare(JNull, a) == Ok(a != JNull)
  {
    StripsAreIdempotentAndCommute(a);
  }

  /** The names the comparison leaves out: five at the top, two inside `metadata`, and no others. */
  lemma IgnoredNames(f: map<string, Json>, k: string, v: Json)
    ensures Compare(JObj(f), JObj(f[k := v])) == Ok(false) <==>
              || k in {"system_metadata", "status", "referring_objects", "create_form", "replace_form"}
              || (k in f && (f[k] == v || (k == "metadata" && SameUserMetadata(f[k], v))))
  {
    ComparesEqualExactlyWhen(f, f[k := v]);
    if Compare(JObj(f), JObj(f[k := v])) == Ok(false) && k !in SERVER_MANAGED_TOP_LEVEL {
      assert AgreeOn(f, f[k := v], k);
    }
  }

  /** Two metadata objects alike outside `uid` and `resource_version`. */
  predicate SameUserMetadata(a: Json, b: Json) {
    a.JObj? && b.JObj? && a.fields - {"uid", "resource_version"} == b.fields - {"uid", "resource_version"}
  }

  /** Nothing but an object or `null` can be compared. */
  lemma ComparableDocuments(current: Option<Json>, desired: Json)
    ensures CompareStored(current, desired).Err? <==>
              || current.None? || !(current.value.JObj? || current.value.JNull?) || !(desired.JObj? || desired.JNull?)
  {
  }
}
