/** The loosely typed maps the service passes around (`Map<String, Object>`,
    `List<Map<String, Object>>`), as a JSON-like value type. */
module Json {
  import opened Wrappers

  datatype Value =
    | Null
    | Bool(b: bool)
    | Num(n: int)
    | Str(s: string)
    | Arr(items: seq<Value>)
    | Object(fields: map<string, Value>)

  /** One keyed record: a profile, an affiliation row, an external-id row, a location. */
  type Record = map<string, Value>

  /** `m.get(k)`: a missing key reads as null. */
  function Get(m: Record, k: string): Value {
    if k in m then m[k] else Null
  }

  /** `(String) v`: a string, or null for anything else. */
  function AsStr(v: Value): Option<string> {
    if v.Str? then Some(v.s) else None
  }

  function StrAt(m: Record, k: string): Option<string> {
    AsStr(Get(m, k))
  }

  /** The value a Java `String` variable holds once it is put into a map. */
  function OfStr(s: Option<string>): Value {
    match s
    case Some(t) => Str(t)
    case None => Null
  }

  /** `(List) v`, with null (or a non-list) read as the empty list. */
  function ListOf(v: Value): seq<Value> {
    if v.Arr? then v.items else []
  }

  /** `(Map) v`, with null (or a non-map) read as the empty map. */
  function RecOf(v: Value): Record {
    if v.Object? then v.fields else map[]
  }

  function Records(vs: seq<Value>): (rs: seq<Record>)
    ensures |rs| == |vs|
    ensures forall i :: 0 <= i < |vs| ==> rs[i] == RecOf(vs[i])
  {
    seq(|vs|, i requires 0 <= i < |vs| => RecOf(vs[i]))
  }

  function Objects(rs: seq<Record>): (vs: seq<Value>)
    ensures |vs| == |rs|
    ensures forall i :: 0 <= i < |rs| ==> vs[i] == Object(rs[i])
  {
    seq(|rs|, i requires 0 <= i < |rs| => Object(rs[i]))
  }

  /** Reading back a list of records that was stored as objects gives the records. */
  lemma RecordsObjects(rs: seq<Record>)
    ensures Records(Objects(rs)) == rs
  {
  }

  /** `CollectionUtils.isNotEmpty`. */
  predicate IsNonEmptyList(v: Value) {
    v.Arr? && |v.items| > 0
  }

  /** `MapUtils.isNotEmpty`. */
  predicate IsNonEmptyObject(v: Value) {
    v.Object? && |v.fields| > 0
  }

  /** Jackson `readValue(s, Map)`: the literal `null` reads as null, an object
      as itself; anything else (or a parse error) throws, which is None. */
  function ReadAsMap(parse: string -> Option<Value>, s: string): (r: Option<Value>)
    ensures r.Some? ==> r.value == Null || r.value.Object?
    ensures r.Some? ==> parse(s) == r
    ensures parse(s).Some? && IsMapOrNull(parse(s).value) ==> r == parse(s)
  {
    match parse(s)
    case Some(Null) => Some(Null)
    case Some(Object(m)) => Some(Object(m))
    case _ => None
  }

  predicate IsMapOrNull(v: Value) {
    v.Null? || v.Object?
  }

  /** Jackson `readValue(s, List<Map<…>>)`: null, or a list whose every element
      is a map or null; anything else throws (None). The values inside the maps
      are taken as parsed, without Jackson's coercion to strings. */
  function ReadAsMapList(parse: string -> Option<Value>, s: string): (r: Option<Value>)
    ensures r.Some? ==> r.value == Null || (r.value.Arr? && forall i :: 0 <= i < |r.value.items| ==> IsMapOrNull(r.value.items[i]))
    ensures r.Some? ==> parse(s) == r
    ensures parse(s) == Some(Null) ==> r == Some(Null)
    ensures parse(s).Some? && parse(s).value.Arr? && (forall i :: 0 <= i < |parse(s).value.items| ==> IsMapOrNull(parse(s).value.items[i])) ==> r == parse(s)
  {
    match parse(s)
    case Some(Null) => Some(Null)
    case Some(Arr(xs)) =>
      if forall i :: 0 <= i < |xs| ==> IsMapOrNull(xs[i]) then Some(Arr(xs)) else None
    case _ => None
  }

  /** `list.stream().map(m -> m.get("id"))` over a list of maps: the `id` of
      every element, in order; a null element throws (None). */
  function IdsOf(xs: seq<Value>, idKey: string): (r: Option<seq<Value>>)
    ensures r.Some? <==> forall i :: 0 <= i < |xs| ==> xs[i].Object?
    ensures r.Some? ==> |r.value| == |xs| && forall i :: 0 <= i < |xs| ==> r.value[i] == Get(xs[i].fields, idKey)
  {
    if |xs| == 0 then Some([])
    else
      match IdsOf(xs[..|xs| - 1], idKey)
      case None => None
      case Some(ids) =>
        if xs[|xs| - 1].Object? then Some(ids + [Get(xs[|xs| - 1].fields, idKey)]) else None
  }
}
