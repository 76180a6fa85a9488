/**
 * JSON at the level of serde's data model, and the field readers and writers that serde's
 * derived implementations use for the entities of this library.
 *
 * The character-level grammar is not modelled: a `JsonCodec` stands for the text writer
 * (simd_json) and the text reader (serde_json) as a pair of functions, and the lemmas that need
 * the reader to undo the writer take `RoundTrips(codec)` as a hypothesis.
 */
module Json {
  import opened Wrappers
  import opened Strings

  /** A JSON document. Object members are keyed by name, so a decoded object has no duplicates. */
  datatype Json =
    | JNull
    | JBool(b: bool)
    | JNumber(n: int)
    | JString(s: string)
    | JArray(items: seq<Json>)
    | JObject(fields: map<string, Json>)

  /** Why a document does not decode as the expected Rust type. */
  datatype JsonError =
    | NotAnObject
    | NotAnArray
    | MissingField(field: string)
    | InvalidType(field: string)
    | UnknownVariant(variant: string)
    | OutOfRange(field: string)
    | Custom(message: string)

  /** A text writer paired with a text reader. */
  datatype JsonCodec = JsonCodec(toText: Json -> seq<byte>, fromText: seq<byte> -> Option<Json>)

  /**
   * Every number in the document fits in an `i64`; serde_json reads larger integers back as
   * floating-point numbers, so only such documents survive a round trip.
   */
  predicate Int64Numbers(j: Json) {
    match j
    case JNumber(n) => -0x8000_0000_0000_0000 <= n < 0x8000_0000_0000_0000
    case JArray(items) => forall i :: 0 <= i < |items| ==> Int64Numbers(items[i])
    case JObject(fields) => forall k :: k in fields ==> Int64Numbers(fields[k])
    case _ => true
  }

  /** The reader gives back every document the writer wrote whose numbers fit in an `i64`. */
  ghost predicate RoundTrips(c: JsonCodec) {
    forall j :: Int64Numbers(j) ==> c.fromText(c.toText(j)) == Some(j)
  }

  /** A `String` member: present and a string. */
  function StringField(fields: map<string, Json>, name: string): (r: Result<string, JsonError>)
    ensures r.Ok? <==> name in fields && fields[name].JString?
    ensures r.Ok? ==> fields[name] == JString(r.value)
  {
    if name !in fields then Err(MissingField(name))
    else if fields[name].JString? then Ok(fields[name].s)
    else Err(InvalidType(name))
  }

  /** A `bool` member: present and a boolean. */
  function BoolField(fields: map<string, Json>, name: string): (r: Result<bool, JsonError>)
    ensures r.Ok? <==> name in fields && fields[name].JBool?
    ensures r.Ok? ==> fields[name] == JBool(r.value)
  {
    if name !in fields then Err(MissingField(name))
    else if fields[name].JBool? then Ok(fields[name].b)
    else Err(InvalidType(name))
  }

  /**
   * An `Option<String>` member with serde's derived behaviour: an absent member and `null`
   * both read as `None`.
   */
  function OptStringField(fields: map<string, Json>, name: string): (r: Result<Option<string>, JsonError>)
    ensures r == Ok(None) <==> name !in fields || fields[name] == JNull
    ensures r.Err? <==> name in fields && !fields[name].JNull? && !fields[name].JString?
  {
    if name !in fields then Ok(None)
    else match fields[name]
      case JNull => Ok(None)
      case JString(s) => Ok(Some(s))
      case _ => Err(InvalidType(name))
  }

  /** An `Option<i32>` member: absent or `null` is `None`; a number outside `i32` is rejected. */
  function OptInt32Field(fields: map<string, Json>, name: string): (r: Result<Option<int32>, JsonError>)
    ensures r == Ok(None) <==> name !in fields || fields[name] == JNull
    ensures r.Ok? && r.value.Some? ==> fields[name] == JNumber(r.value.value)
    ensures name in fields && fields[name].JNumber? ==>
              (r.Ok? <==> -0x8000_0000 <= fields[name].n < 0x8000_0000)
  {
    if name !in fields then Ok(None)
    else match fields[name]
      case JNull => Ok(None)
      case JNumber(n) => if -0x8000_0000 <= n < 0x8000_0000 then Ok(Some(n)) else Err(OutOfRange(name))
      case _ => Err(InvalidType(name))
  }

  /** A `DateTime<Utc>` member: a string (its RFC 3339 syntax is not checked here). */
  function TimestampField(fields: map<string, Json>, name: string): (r: Result<Timestamp, JsonError>)
    ensures r.Ok? <==> name in fields && fields[name].JString?
    ensures r.Ok? ==> fields[name] == JString(r.value.rfc3339)
  {
    if name !in fields then Err(MissingField(name))
    else if fields[name].JString? then Ok(Timestamp(fields[name].s))
    else Err(InvalidType(name))
  }

  /** serde writes `None` as `null`: the member is always present. */
  function OptStringJson(o: Option<string>): Json {
    match o
    case None => JNull
    case Some(s) => JString(s)
  }

  function OptInt32Json(o: Option<int32>): Json {
    match o
    case None => JNull
    case Some(n) => JNumber(n)
  }
}
