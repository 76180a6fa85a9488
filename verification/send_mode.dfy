/**
 * The `SendMode` aggregate and its three representations: the JSON shape (with the private key
 * as PKCS#1 PEM text), the relational row, and the cache blob. Also the creation payload
 * `NewSendModeRequest` with its JSON body, and `RenameSendModeRequest`.
 */
module SendModes {
  import opened Wrappers
  import opened Strings
  import opened Json
  import opened Pem
  import opened Sql
  import opened SendModeKinds
  import Redis

  datatype SendMode = SendMode(
    id: string,
    aggregateId: string,
    name: string,
    sendMode: SendModeEnum,
    accessToken: string,
    fingerprint: Option<string>,
    privateKey: Option<RsaPrivateKey>,
    autoHeartbeatInterval: Option<int32>,
    lastHeartbeat: Timestamp)

  datatype NewSendModeRequest = NewSendModeRequest(
    aggregateId: string,
    name: string,
    mode: SendModeEnum,
    accessToken: string,
    autoHeartbeatInterval: Option<int32>)

  datatype RenameSendModeRequest = RenameSendModeRequest(id: string, name: string)

  // ---------------------------------------------------------------------------------------------
  // JSON

  /** The derived serialisation of a kind: its variant name as a string. */
  function KindJson(v: SendModeEnum): (j: Json)
    ensures j.JString? && FromStr(j.s) == Ok(v)
  {
    JString(Name(v))
  }

  /**
   * serde_json's externally tagged form of a unit variant: an object whose only member is named
   * after the variant and holds `null`.
   */
  predicate TaggedKind(j: Json, v: SendModeEnum) {
    j == JObject(map[Name(v) := JNull])
  }

  /** The two forms in which the derived deserialisation accepts a kind. */
  predicate KindForm(j: Json, v: SendModeEnum) {
    j == KindJson(v) || TaggedKind(j, v)
  }

  /**
   * The derived deserialisation of a kind: the variant name as a string, or the tagged form with
   * a `null` payload. Any other string is an unknown variant, any other value a type error.
   */
  function KindField(fields: map<string, Json>, name: string): (r: Result<SendModeEnum, JsonError>)
    ensures r.Ok? ==> name in fields && KindForm(fields[name], r.value)
    ensures name in fields ==> forall v :: KindForm(fields[name], v) ==> r == Ok(v)
    ensures name in fields && fields[name].JString? ==>
              (r.Ok? <==> fields[name].s == "KRAFT" || fields[name].s == "TRADEMO")
  {
    if name !in fields then Err(MissingField(name))
    else match fields[name]
      case JString(s) => (match FromStr(s) case Ok(v) => Ok(v) case Err(_) => Err(UnknownVariant(s)))
      case JObject(m) =>
        if m == map["KRAFT" := JNull] then assert "TRADEMO" !in m; Ok(Kraft)
        else if m == map["TRADEMO" := JNull] then Ok(Trademo)
        else Err(InvalidType(name))
      case _ => Err(InvalidType(name))
  }

  /** `rsa_serialize`: a present key is written as its LF-terminated PEM text, an absent one as `null`. */
  function RsaSerialize(key: Option<RsaPrivateKey>): (j: Json)
    ensures j == JNull <==> key.None?
    ensures key.Some? ==> j.JString?
    ensures j.JString? ==> PemDecode(j.s) == key
  {
    match key
    case None => JNull
    case Some(k) => PemRoundTrip(k); JString(PemEncode(k))
  }

  /**
   * `rsa_deserialize`: `null` is no key, a string must be PEM text of a key, anything else is a
   * decode error.
   */
  function RsaDeserialize(j: Json): (r: Result<Option<RsaPrivateKey>, JsonError>)
    ensures r == Ok(None) <==> j == JNull
    ensures r.Ok? && r.value.Some? ==> j == JString(PemEncode(r.value.value))
    ensures j.JString? && PemDecode(j.s).None? ==> r.Err?
    ensures j.JString? && PemDecode(j.s).Some? ==> r == Ok(PemDecode(j.s))
  {
    match j
    case JNull => Ok(None)
    case JString(pem) =>
      (match PemDecode(pem)
       case Some(k) => PemCanonical(pem); Ok(Some(k))
       case None => Err(Custom("malformed PKCS#1 PEM")))
    case _ => Err(InvalidType("private_key"))
  }

  /** The derived serialisation: every member is written, absent options as `null`. */
  function SendModeToJson(m: SendMode): (j: Json)
    ensures j.JObject? && SendModeMembers(j.fields, m)
    ensures Int64Numbers(j)
  {
    JObject(map[
      "id" := JString(m.id),
      "aggregate_id" := JString(m.aggregateId),
      "name" := JString(m.name),
      "send_mode" := KindJson(m.sendMode),
      "access_token" := JString(m.accessToken),
      "fingerprint" := OptStringJson(m.fingerprint),
      "private_key" := RsaSerialize(m.privateKey),
      "auto_heartbeat_interval" := OptInt32Json(m.autoHeartbeatInterval),
      "last_heartbeat" := JString(m.lastHeartbeat.rfc3339)])
  }

  /**
   * The members a document must hold for it to decode as `m`: each member `SendModeToJson(m)`
   * writes, with the value written there, except that the kind may also be in its tagged form and
   * `fingerprint` and `auto_heartbeat_interval` may be left out when they are `None`.
   */
  predicate SendModeMembers(f: map<string, Json>, m: SendMode) {
    && "id" in f && f["id"] == JString(m.id)
    && "aggregate_id" in f && f["aggregate_id"] == JString(m.aggregateId)
    && "name" in f && f["name"] == JString(m.name)
    && "send_mode" in f && KindForm(f["send_mode"], m.sendMode)
    && "access_token" in f && f["access_token"] == JString(m.accessToken)
    && (if "fingerprint" in f then f["fingerprint"] == OptStringJson(m.fingerprint) else m.fingerprint.None?)
    && "private_key" in f && f["private_key"] == RsaSerialize(m.privateKey)
    && (if "auto_heartbeat_interval" in f then f["auto_heartbeat_interval"] == OptInt32Json(m.autoHeartbeatInterval)
        else m.autoHeartbeatInterval.None?)
    && "last_heartbeat" in f && f["last_heartbeat"] == JString(m.lastHeartbeat.rfc3339)
  }

  /**
   * The derived deserialisation. Unknown members are ignored; a missing `fingerprint` or
   * `auto_heartbeat_interval` reads as `None`, but `private_key` goes through `rsa_deserialize`
   * and must be present.
   */
  function SendModeFromJson(j: Json): (r: Result<SendMode, JsonError>)
    ensures r.Ok? ==> j.JObject? && SendModeMembers(j.fields, r.value)
  {
    if !j.JObject? then Err(NotAnObject)
    else
      var f := j.fields;
      var id :- StringField(f, "id");
      var aggregateId :- StringField(f, "aggregate_id");
      var name :- StringField(f, "name");
      var sendMode :- KindField(f, "send_mode");
      var accessToken :- StringField(f, "access_token");
      var fingerprint :- OptStringField(f, "fingerprint");
      var privateKey :- if "private_key" in f then RsaDeserialize(f["private_key"])
                        else Err(MissingField("private_key"));
      var interval :- OptInt32Field(f, "auto_heartbeat_interval");
      var lastHeartbeat :- TimestampField(f, "last_heartbeat");
      Ok(SendMode(id, aggregateId, name, sendMode, accessToken, fingerprint, privateKey, interval, lastHeartbeat))
  }

  /** Each member reader finds the value the writer put under its name. */
  lemma SendModeJsonMembers(m: SendMode)
    ensures SendModeToJson(m).JObject?
    ensures var f := SendModeToJson(m).fields;
      && StringField(f, "id") == Ok(m.id)
      && StringField(f, "aggregate_id") == Ok(m.aggregateId)
      && StringField(f, "name") == Ok(m.name)
      && KindField(f, "send_mode") == Ok(m.sendMode)
      && StringField(f, "access_token") == Ok(m.accessToken)
      && OptStringField(f, "fingerprint") == Ok(m.fingerprint)
      && "private_key" in f && f["private_key"] == RsaSerialize(m.privateKey)
      && OptInt32Field(f, "auto_heartbeat_interval") == Ok(m.autoHeartbeatInterval)
      && TimestampField(f, "last_heartbeat") == Ok(m.lastHeartbeat)
  {
  }

  /** `rsa_deserialize` inverts `rsa_serialize`. */
  lemma RsaRoundTrip(key: Option<RsaPrivateKey>)
    ensures RsaDeserialize(RsaSerialize(key)) == Ok(key)
  {
    if key.Some? {
      PemRoundTrip(key.value);
    }
  }

  /** Any object holding the members of `m`, whatever else it holds, decodes as `m`. */
  lemma SendModeFromMembers(f: map<string, Json>, m: SendMode)
    requires SendModeMembers(f, m)
    ensures SendModeFromJson(JObject(f)) == Ok(m)
  {
    RsaRoundTrip(m.privateKey);
  }

  /** Decoding the JSON of a send mode gives it back, private key included. */
  lemma SendModeJsonRoundTrip(m: SendMode)
    ensures SendModeFromJson(SendModeToJson(m)) == Ok(m)
  {
    SendModeJsonMembers(m);
    RsaRoundTrip(m.privateKey);
  }

  /** The JSON items of a list, in order. */
  function SendModeListJson(ms: seq<SendMode>): (items: seq<Json>)
    ensures |items| == |ms|
    ensures forall i :: 0 <= i < |ms| ==> items[i] == SendModeToJson(ms[i])
  {
    if ms == [] then [] else [SendModeToJson(ms[0])] + SendModeListJson(ms[1..])
  }

  /** `Vec<SendMode>` from the items of a JSON array: all must decode; order is kept. */
  function SendModesFromItems(items: seq<Json>): (r: Result<seq<SendMode>, JsonError>)
    ensures r.Ok? ==> |r.value| == |items|
    ensures r.Ok? ==> forall i :: 0 <= i < |items| ==> SendModeFromJson(items[i]) == Ok(r.value[i])
    ensures r.Err? <==> exists i :: 0 <= i < |items| && SendModeFromJson(items[i]).Err?
  {
    if items == [] then Ok([])
    else
      match SendModeFromJson(items[0])
      case Err(e) => Err(e)
      case Ok(m) =>
        match SendModesFromItems(items[1..])
        case Err(e) =>
          var i :| 0 <= i < |items[1..]| && SendModeFromJson(items[1..][i]).Err?;
          assert items[1..][i] == items[i + 1];
          Err(e)
        case Ok(ms) =>
          assert forall i :: 1 <= i < |items| ==> items[i] == items[1..][i - 1];
          Ok([m] + ms)
  }

  /** The derived deserialisation of `Vec<SendMode>`. */
  function SendModeListFromJson(j: Json): Result<seq<SendMode>, JsonError> {
    if j.JArray? then SendModesFromItems(j.items) else Err(NotAnArray)
  }

  /** A list written as JSON decodes to the same list, in the same order. */
  lemma {:induction false} SendModeListRoundTrip(ms: seq<SendMode>)
    ensures SendModeListFromJson(JArray(SendModeListJson(ms))) == Ok(ms)
  {
    var items := SendModeListJson(ms);
    forall i | 0 <= i < |ms| ensures SendModeFromJson(items[i]) == Ok(ms[i]) {
      SendModeJsonRoundTrip(ms[i]);
    }
    var r := SendModesFromItems(items);
    assert r.Ok?;
    assert r.value == ms;
  }

  /** `NewSendModeRequest`'s derived serialisation. */
  function NewSendModeRequestToJson(req: NewSendModeRequest): (j: Json)
    ensures Int64Numbers(j)
  {
    JObject(map[
      "aggregate_id" := JString(req.aggregateId),
      "name" := JString(req.name),
      "mode" := KindJson(req.mode),
      "access_token" := JString(req.accessToken),
      "auto_heartbeat_interval" := OptInt32Json(req.autoHeartbeatInterval)])
  }

  /** `NewSendModeRequest`'s derived deserialisation. */
  function NewSendModeRequestFromJson(j: Json): Result<NewSendModeRequest, JsonError> {
    if !j.JObject? then Err(NotAnObject)
    else
      var f := j.fields;
      var aggregateId :- StringField(f, "aggregate_id");
      var name :- StringField(f, "name");
      var mode :- KindField(f, "mode");
      var accessToken :- StringField(f, "access_token");
      var interval :- OptInt32Field(f, "auto_heartbeat_interval");
      Ok(NewSendModeRequest(aggregateId, name, mode, accessToken, interval))
  }

  /** The creation payload's JSON decodes back to the payload. */
  lemma NewSendModeRequestJsonRoundTrip(req: NewSendModeRequest)
    ensures NewSendModeRequestFromJson(NewSendModeRequestToJson(req)) == Ok(req)
  {
    var f := NewSendModeRequestToJson(req).fields;
    assert StringField(f, "aggregate_id") == Ok(req.aggregateId);
    assert StringField(f, "name") == Ok(req.name);
    assert KindField(f, "mode") == Ok(req.mode);
    assert StringField(f, "access_token") == Ok(req.accessToken);
    assert OptInt32Field(f, "auto_heartbeat_interval") == Ok(req.autoHeartbeatInterval);
  }

  /**
   * `Into<Body>`: the request body is the JSON text of the creation payload, so a receiver reading
   * it with the same codec gets the payload back.
   */
  function NewSendModeRequestBody(req: NewSendModeRequest, codec: JsonCodec): (body: seq<byte>)
    ensures RoundTrips(codec) ==> codec.fromText(body).Some?
                                  && NewSendModeRequestFromJson(codec.fromText(body).value) == Ok(req)
  {
    NewSendModeRequestJsonRoundTrip(req);
    codec.toText(NewSendModeRequestToJson(req))
  }

  // ---------------------------------------------------------------------------------------------
  // Relational row

  /** `row.get::<SendModeEnum>(name)` succeeds: an accepted text column holding a kind's name. */
  predicate HasKind(row: Row, name: string) {
    name in row && FromSqlAccepts(row[name].sqlType) && row[name].value.TextValue?
    && FromSql(row[name].sqlType, Utf8(row[name].value.text)).Ok?
  }

  /**
   * Every `row.get` of the conversion succeeds. `private_key` is read as non-optional text, so a
   * NULL there is not a valid row.
   */
  predicate ValidSendModeRow(row: Row) {
    && HasString(row, "id")
    && HasString(row, "aggregate_id")
    && HasString(row, "name")
    && HasKind(row, "send_mode")
    && HasString(row, "access_token")
    && HasOptString(row, "fingerprint")
    && HasString(row, "private_key")
    && HasOptInt4(row, "auto_heartbeat_interval")
    && HasTimestamp(row, "last_heartbeat")
  }

  function OptText(c: Cell): Option<string> {
    if c.TextValue? then Some(c.text) else None
  }

  function OptInt4(c: Cell): Option<int32> {
    if c.Int4Value? then Some(c.i) else None
  }

  /**
   * `From<Row>`: each column is copied into the field of the same name; the `private_key` text
   * is parsed as PEM, and text that does not parse gives no key instead of a failure.
   */
  function SendModeFromRow(row: Row): (m: SendMode)
    requires ValidSendModeRow(row)
    ensures m.id == row["id"].value.text && m.aggregateId == row["aggregate_id"].value.text
    ensures m.name == row["name"].value.text && m.accessToken == row["access_token"].value.text
    ensures Name(m.sendMode) == row["send_mode"].value.text
    ensures m.fingerprint.None? <==> row["fingerprint"].value.Null?
    ensures m.fingerprint.Some? ==> row["fingerprint"].value == TextValue(m.fingerprint.value)
    ensures m.privateKey.None? <==> PemDecode(row["private_key"].value.text).None?
    ensures m.privateKey.Some? ==> PemEncode(m.privateKey.value) == row["private_key"].value.text
    ensures m.autoHeartbeatInterval.None? <==> row["auto_heartbeat_interval"].value.Null?
    ensures m.autoHeartbeatInterval.Some? ==>
              row["auto_heartbeat_interval"].value == Int4Value(m.autoHeartbeatInterval.value)
    ensures m.lastHeartbeat == row["last_heartbeat"].value.t
  {
    var kind := row["send_mode"];
    FromSqlOfText(kind.sqlType, kind.value.text);
    var pem := row["private_key"].value.text;
    assert PemDecode(pem).Some? ==> PemEncode(PemDecode(pem).value) == pem by {
      if PemDecode(pem).Some? { PemCanonical(pem); }
    }
    SendMode(
      id := row["id"].value.text,
      aggregateId := row["aggregate_id"].value.text,
      name := row["name"].value.text,
      sendMode := FromSql(kind.sqlType, Utf8(kind.value.text)).value,
      accessToken := row["access_token"].value.text,
      fingerprint := OptText(row["fingerprint"].value),
      privateKey := PemDecode(pem),
      autoHeartbeatInterval := OptInt4(row["auto_heartbeat_interval"].value),
      lastHeartbeat := row["last_heartbeat"].value.t)
  }

  /** `From<&Row>`: the same conversion from a borrowed row, with the same result. */
  function SendModeFromRowRef(row: Row): (m: SendMode)
    requires ValidSendModeRow(row)
    ensures m == SendModeFromRow(row)
  {
    var kind := row["send_mode"];
    SendMode(
      id := row["id"].value.text,
      aggregateId := row["aggregate_id"].value.text,
      name := row["name"].value.text,
      sendMode := FromSql(kind.sqlType, Utf8(kind.value.text)).value,
      accessToken := row["access_token"].value.text,
      fingerprint := OptText(row["fingerprint"].value),
      privateKey := PemDecode(row["private_key"].value.text),
      autoHeartbeatInterval := OptInt4(row["auto_heartbeat_interval"].value),
      lastHeartbeat := row["last_heartbeat"].value.t)
  }

  /**
   * A row as a store holding `m` returns it: a key as its PEM text, no key as empty text (which
   * does not parse as PEM).
   */
  function SendModeToRow(m: SendMode): Row {
    map[
      "id" := Column(Text, TextValue(m.id)),
      "aggregate_id" := Column(Text, TextValue(m.aggregateId)),
      "name" := Column(Text, TextValue(m.name)),
      "send_mode" := Column(Varchar, TextValue(Name(m.sendMode))),
      "access_token" := Column(Text, TextValue(m.accessToken)),
      "fingerprint" := Column(Text, if m.fingerprint.Some? then TextValue(m.fingerprint.value) else Null),
      "private_key" := Column(Text, TextValue(if m.privateKey.Some? then PemEncode(m.privateKey.value) else "")),
      "auto_heartbeat_interval" := Column(Int4, if m.autoHeartbeatInterval.Some? then Int4Value(m.autoHeartbeatInterval.value) else Null),
      "last_heartbeat" := Column(Timestamptz, TimestampValue(m.lastHeartbeat))]
  }

  /** Each column of the stored row holds the field of the same name. */
  lemma SendModeToRowColumns(m: SendMode)
    ensures var row := SendModeToRow(m);
      && row["id"] == Column(Text, TextValue(m.id))
      && row["aggregate_id"] == Column(Text, TextValue(m.aggregateId))
      && row["name"] == Column(Text, TextValue(m.name))
      && row["send_mode"] == Column(Varchar, TextValue(Name(m.sendMode)))
      && row["access_token"] == Column(Text, TextValue(m.accessToken))
      && row["fingerprint"].sqlType == Text
      && OptText(row["fingerprint"].value) == m.fingerprint
      && (m.fingerprint.None? <==> row["fingerprint"].value.Null?)
      && row["private_key"] == Column(Text, TextValue(if m.privateKey.Some? then PemEncode(m.privateKey.value) else ""))
      && row["auto_heartbeat_interval"].sqlType == Int4
      && OptInt4(row["auto_heartbeat_interval"].value) == m.autoHeartbeatInterval
      && (m.autoHeartbeatInterval.None? <==> row["auto_heartbeat_interval"].value.Null?)
      && row["last_heartbeat"] == Column(Timestamptz, TimestampValue(m.lastHeartbeat))
  {
  }

  /** The row a store keeps for a send mode passes every check of the conversion. */
  lemma SendModeToRowValid(m: SendMode)
    ensures ValidSendModeRow(SendModeToRow(m))
  {
    SendModeToRowColumns(m);
    FromSqlOfName(Varchar, m.sendMode);
  }

  /** Storing a send mode as a row and converting the row back gives the send mode. */
  lemma SendModeRowRoundTrip(m: SendMode)
    ensures ValidSendModeRow(SendModeToRow(m))
    ensures SendModeFromRow(SendModeToRow(m)) == m
  {
    SendModeToRowValid(m);
    SendModeToRowColumns(m);
    FromSqlOfName(Varchar, m.sendMode);
    assert PemDecode("").None?;
    if m.privateKey.Some? {
      PemRoundTrip(m.privateKey.value);
    }
  }

  // ---------------------------------------------------------------------------------------------
  // Cache blob

  /** The one argument `write_redis_args` writes: the JSON text of the send mode. */
  function SendModeCacheArg(m: SendMode, codec: JsonCodec): seq<byte> {
    codec.toText(SendModeToJson(m))
  }

  /** `ToRedisArgs::write_redis_args`. */
  method WriteSendModeArgs(m: SendMode, codec: JsonCodec, out: Redis.ArgWriter)
    modifies out
    ensures out.args == old(out.args) + [SendModeCacheArg(m, codec)]
  {
    out.WriteArg(codec.toText(SendModeToJson(m)));
  }

  const UNDECODABLE_SEND_MODE := "Cannot deserialize send_mode"
  const UNKNOWN_FORMAT_SEND_MODE := "Cannot deserialize send_mode unknown format"

  /**
   * `FromRedisValue`: only a bulk string is read, as the JSON text of a send mode; every failure
   * is a `TypeError`.
   */
  function SendModeFromRedisValue(v: Redis.Value, codec: JsonCodec): (r: Result<SendMode, Redis.RedisError>)
    ensures r.Err? ==> r.error.kind == Redis.TypeError
    ensures !v.BulkString? ==> r == Err(Redis.RedisError(Redis.TypeError, UNKNOWN_FORMAT_SEND_MODE))
    ensures v.BulkString? && r.Err? ==> r.error.description == UNDECODABLE_SEND_MODE
    ensures r.Ok? <==> v.BulkString? && codec.fromText(v.bytes).Some?
                       && SendModeFromJson(codec.fromText(v.bytes).value).Ok?
    ensures r.Ok? ==> SendModeFromJson(codec.fromText(v.bytes).value) == Ok(r.value)
  {
    match v
    case BulkString(bytes) =>
      (match codec.fromText(bytes)
       case Some(j) =>
         (match SendModeFromJson(j)
          case Ok(m) => Ok(m)
          case Err(_) => Err(Redis.RedisError(Redis.TypeError, UNDECODABLE_SEND_MODE)))
       case None => Err(Redis.RedisError(Redis.TypeError, UNDECODABLE_SEND_MODE)))
    case _ => Err(Redis.RedisError(Redis.TypeError, UNKNOWN_FORMAT_SEND_MODE))
  }

  /** The cache argument of a send mode, read back as a bulk string, is that send mode. */
  lemma SendModeCacheRoundTrip(m: SendMode, codec: JsonCodec)
    requires RoundTrips(codec)
    ensures SendModeFromRedisValue(Redis.BulkString(SendModeCacheArg(m, codec)), codec) == Ok(m)
  {
    SendModeJsonRoundTrip(m);
  }
}
