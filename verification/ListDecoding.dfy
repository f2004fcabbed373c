/**
 Decoding of list responses (internal/xcclient/helpers.go), on decoded trees: XC
 lists objects in a flat form, with `name` and `namespace` at the top and no metadata.
 */
module ListDecoding {
  import opened Wrappers
  import opened Json
  import opened PoolDecoding

  const METADATA := "metadata"

  /** A flat item: its name and namespace are text, the name is not empty, and there is no metadata. */
  predicate IsFlat(item: Json) {
    && item.JObj?
    && TextFits(item.fields, "name") && TextFits(item.fields, "namespace")
    && Text(item.fields, "name") != ""
    && (METADATA in item.fields ==> item.fields[METADATA].JNull?)
  }

  /** `ObjectMeta` with these two members; the namespace is left out when empty. */
  function NestedMetadata(fields: Fields): Json {
    var named := map["name" := JStr(Text(fields, "name"))];
    JObj(if Text(fields, "namespace") == "" then named else named["namespace" := JStr(Text(fields, "namespace"))])
  }

  function NormalizeListItem(item: Json): Json {
    if IsFlat(item) then JObj(item.fields[METADATA := NestedMetadata(item.fields)]) else item
  }

  /** Normalising again changes nothing; only `metadata` is ever changed, and only where there was none; the name then reads the same inside. */
  lemma NormalizingIsGentle(item: Json)
    ensures NormalizeListItem(NormalizeListItem(item)) == NormalizeListItem(item)
    ensures !IsFlat(item) ==> NormalizeListItem(item) == item
    ensures item.JObj? ==>
              NormalizeListItem(item).JObj?
              && NormalizeListItem(item).fields - {METADATA} == item.fields - {METADATA}
    ensures item.JObj? && METADATA in item.fields && !item.fields[METADATA].JNull? ==> NormalizeListItem(item) == item
    ensures IsFlat(item) ==>
              var meta := NormalizeListItem(item).fields[METADATA].fields;
              MetadataDecodes(meta) && Text(meta, "name") == Text(item.fields, "name") && Text(meta, "namespace") == Text(item.fields, "namespace")
  {
    if IsFlat(item) {
      var once := NormalizeListItem(item);
      assert once.fields[METADATA].JObj?;
      assert |"name"| == 4 && |"namespace"| == 9 && |"description"| == 11 && |"resource_version"| == 16 && |"uid"| == 3;
      assert |"labels"| == 6 && |"annotations"| == 11 && |"disable"| == 7;
    }
  }

  predicate IsListDocument(data: Json) {
    data.JNull? || (data.JObj? && ListFits(data.fields, "items"))
  }

  function Items(data: Json): seq<Json> {
    if data.JObj? then Elements(data.fields, "items") else []
  }

  /** `decode` reads one item into the wanted type, if it can. */
  method UnmarshalList<T>(data: Json, decode: Json -> Option<T>) returns (r: Result<seq<T>>)
    ensures r.Ok? <==> IsListDocument(data) && forall i | 0 <= i < |Items(data)| :: decode(NormalizeListItem(Items(data)[i])).Some?
    ensures r.Ok? ==>
              && |r.value| == |Items(data)|
              && forall i | 0 <= i < |r.value| :: decode(NormalizeListItem(Items(data)[i])) == Some(r.value[i])
  {
    if !IsListDocument(data) {
      return Err;
    }
    var items := Items(data);
    var out: seq<T> := [];
    for i := 0 to |items|
      invariant |out| == i
      invariant forall k | 0 <= k < i :: decode(NormalizeListItem(items[k])) == Some(out[k])
    {
      var item := decode(NormalizeListItem(items[i]));
      if item.None? {
        return Err;
      }
      out := out + [item.value];
    }
    r := Ok(out);
  }

  /** Which items are rewritten, by their members: those with a name as text, no namespace that is not text, and no metadata. */
  lemma RewrittenByItsFields(item: Json)
    ensures NormalizeListItem(item) != item <==>
              && item.JObj? && "name" in item.fields && item.fields["name"].JStr? && item.fields["name"].s != ""
              && ("namespace" in item.fields ==> item.fields["namespace"].JStr? || item.fields["namespace"].JNull?)
              && ("metadata" in item.fields ==> item.fields["metadata"].JNull?)
    ensures NormalizeListItem(item) != item ==>
              && "metadata" in NormalizeListItem(item).fields && NormalizeListItem(item).fields["metadata"].JObj?
              && NormalizeListItem(item).fields["metadata"].fields.Keys <= {"name", "namespace"}
  {
    if IsFlat(item) {
      assert NormalizeListItem(item).fields["metadata"].JObj?;
    }
  }

  /** The items of a response are its `items`; without them, or with `null`, there are none. */
  lemma ItemsByTheirField(data: Json)
    ensures IsListDocument(data) <==>
              data.JNull? || (data.JObj? && ("items" in data.fields ==> data.fields["items"].JArr? || data.fields["items"].JNull?))
    ensures data.JObj? && "items" in data.fields && data.fields["items"].JArr? ==> Items(data) == data.fields["items"].elems
    ensures data.JNull? || (data.JObj? && ("items" !in data.fields || data.fields["items"].JNull?)) ==> Items(data) == []
  {
  }
}
