/**
  Normalisation of DICOM search results before they are compared: an instance record loses its
  volatile tags (the retrieve URL, which embeds the name of the store it was read from), and a
  search result container has every record of its `result` list normalised, all else kept.
*/
module DicomNormalize {
  import opened Wrappers

  /** A decoded JSON value, as the search and the metadata download return it. */
  datatype Json =
    | JNull
    | JBool(b: bool)
    | JInt(i: int)
    | JStr(s: string)
    | JArr(items: seq<Json>)
    | JObj(fields: map<string, Json>)

  /** A JSON object: an instance record (tag to value) or a result container (field to value). */
  type Record = map<string, Json>

  /** Tag 00081190, the retrieve URL, names the store the instance was read from. */
  const VolatileTags: set<string> := {"00081190"}

  // ---------------------------------------------------------------- normalize_instance

  /** `normalize_instance`: the record restricted to the tags outside `VolatileTags`. */
  function NormalizeInstance(instance: Record): (r: Record)
    ensures r.Keys == instance.Keys - VolatileTags
    ensures forall k :: k in r ==> r[k] == instance[k]
  {
    map k | k in instance && k !in VolatileTags :: instance[k]
  }

  /** Normalising twice is normalising once. */
  lemma NormalizeInstanceIdempotent(instance: Record)
    ensures NormalizeInstance(NormalizeInstance(instance)) == NormalizeInstance(instance)
  {
  }

  /** A record is left as it is exactly when it holds no volatile tag. */
  lemma NormalizeInstanceFixesClean(instance: Record)
    ensures NormalizeInstance(instance) == instance <==> instance.Keys !! VolatileTags
  {
    if NormalizeInstance(instance) == instance {
      assert instance.Keys == NormalizeInstance(instance).Keys;
    }
  }

  /** Two records that agree outside the volatile tags normalise to the same record. */
  lemma NormalizeInstanceIgnoresVolatile(a: Record, b: Record)
    requires a.Keys - VolatileTags == b.Keys - VolatileTags
    requires forall k :: k in a && k in b && k !in VolatileTags ==> a[k] == b[k]
    ensures NormalizeInstance(a) == NormalizeInstance(b)
  {
  }

  /** Normalised records are equal exactly when the records agree outside the volatile tags. */
  lemma NormalizedEqualIff(a: Record, b: Record)
    ensures NormalizeInstance(a) == NormalizeInstance(b)
       <==> a.Keys - VolatileTags == b.Keys - VolatileTags
            && forall k :: k in a && k in b && k !in VolatileTags ==> a[k] == b[k]
  {
    if NormalizeInstance(a) == NormalizeInstance(b) {
      forall k | k in a && k in b && k !in VolatileTags ensures a[k] == b[k] {
        assert NormalizeInstance(a)[k] == NormalizeInstance(b)[k];
      }
    }
  }

  // ---------------------------------------------------------------- normalize_outer

  datatype NormalizeError =
    | NotIterable  // `result` is null, a boolean or a number (TypeError when iterated)
    | NotARecord   // an element iterated from `result` is not a dict (AttributeError on `.items()`)

  /**
    The list comprehension of `normalize_outer` over the elements of a `result` list: every
    element must be an object and is replaced by its normalised record.
  */
  function NormalizeRecords(items: seq<Json>): (r: Result<seq<Json>, NormalizeError>)
    ensures r.Success? <==> forall i :: 0 <= i < |items| ==> items[i].JObj?
    ensures r.Failure? ==> r.error == NotARecord
    ensures r.Success? ==> |r.value| == |items|
    ensures r.Success? ==> forall i :: 0 <= i < |items| ==> r.value[i] == JObj(NormalizeInstance(items[i].fields))
  {
    if items == [] then Success([])
    else if !items[0].JObj? then Failure(NotARecord)
    else
      var rest := NormalizeRecords(items[1..]);
      if rest.Failure? then rest
      else
        assert forall i :: 1 <= i < |items| ==> items[i] == items[1..][i - 1];
        Success([JObj(NormalizeInstance(items[0].fields))] + rest.value)
  }

  /**
    What iterating `elem.get("result", [])` yields: the elements of a list; the characters of a
    string, or the keys of an object, which are no records unless there are none; nothing at all
    for a scalar, which cannot be iterated.
  */
  function ResultElements(v: Json): (r: Result<seq<Json>, NormalizeError>)
    ensures r.Success? <==> v.JArr? || v == JStr("") || v == JObj(map[])
    ensures v.JArr? ==> r == Success(v.items)
    ensures v == JStr("") || v == JObj(map[]) ==> r == Success([])
    ensures (v.JStr? && v.s != "") || (v.JObj? && v.fields != map[]) ==> r == Failure(NotARecord)
    ensures v.JNull? || v.JBool? || v.JInt? ==> r == Failure(NotIterable)
  {
    match v
    case JArr(items) => Success(items)
    case JStr(s) => if s == "" then Success([]) else Failure(NotARecord)
    case JObj(fields) => if fields == map[] then Success([]) else Failure(NotARecord)
    case _ => Failure(NotIterable)
  }

  /**
    `normalize_outer`: a copy of the container whose `result` is the list of its records,
    normalised; a container without `result` gets an empty one.
  */
  function NormalizeOuter(elem: Record): (r: Result<Record, NormalizeError>)
    ensures r.Success? ==> r.value.Keys == elem.Keys + {"result"}
    ensures r.Success? ==> forall k :: k in elem && k != "result" ==> r.value[k] == elem[k]
    ensures "result" !in elem ==> r == Success(elem["result" := JArr([])])
  {
    var elements := ResultElements(if "result" in elem then elem["result"] else JArr([]));
    if elements.Failure? then Failure(elements.error)
    else
      var normalized := NormalizeRecords(elements.value);
      if normalized.Failure? then Failure(normalized.error)
      else Success(elem["result" := JArr(normalized.value)])
  }

  /**
    A container whose `result` is a list is normalised exactly when every element is a record, and
    then its `result` has the same length as before, element `i` being record `i` normalised.
  */
  lemma NormalizeOuterResultList(elem: Record)
    requires "result" in elem && elem["result"].JArr?
    ensures var items := elem["result"].items;
      var r := NormalizeOuter(elem);
      && (r.Success? <==> forall i :: 0 <= i < |items| ==> items[i].JObj?)
      && (r.Success? ==>
            && r.value["result"].JArr?
            && |r.value["result"].items| == |items|
            && forall i :: 0 <= i < |items| ==>
                 r.value["result"].items[i] == JObj(NormalizeInstance(items[i].fields)))
  {
  }

  /** A normalised container is its own normalisation. */
  lemma NormalizeOuterIdempotent(elem: Record)
    requires NormalizeOuter(elem).Success?
    ensures NormalizeOuter(NormalizeOuter(elem).value) == NormalizeOuter(elem)
  {
    var once := NormalizeOuter(elem).value;
    var items := once["result"].items;
    var base := ResultElements(if "result" in elem then elem["result"] else JArr([])).value;
    assert |items| == |base|;
    assert forall i :: 0 <= i < |items| ==> items[i].JObj?;
    var twice := NormalizeRecords(items).value;
    assert forall i :: 0 <= i < |items| ==> twice[i] == items[i] by {
      forall i | 0 <= i < |items| ensures twice[i] == items[i] {
        NormalizeInstanceIdempotent(base[i].fields);
      }
    }
    assert twice == items;
    assert once["result" := JArr(twice)] == once;
  }

  /**
    A null, boolean or numeric `result` cannot be iterated; a non-empty string or a non-empty
    object yields characters or keys, which are no records; an empty one yields none.
  */
  lemma NormalizeOuterRejects(elem: Record)
    requires "result" in elem
    ensures elem["result"].JNull? || elem["result"].JBool? || elem["result"].JInt?
            ==> NormalizeOuter(elem) == Failure(NotIterable)
    ensures elem["result"].JStr? && elem["result"].s != "" ==> NormalizeOuter(elem) == Failure(NotARecord)
    ensures elem["result"].JObj? && elem["result"].fields != map[] ==> NormalizeOuter(elem) == Failure(NotARecord)
    ensures elem["result"] == JStr("") || elem["result"] == JObj(map[])
            ==> NormalizeOuter(elem) == Success(elem["result" := JArr([])])
  {
  }
}
