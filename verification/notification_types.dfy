/**
 * `NotificationTemplate`, the read-only record a bank's notifications are rendered from, with
 * its JSON shape, its relational row and its cache blob.
 */
module NotificationTypes {
  import opened Wrappers
  import opened Strings
  import opened Json
  import opened Sql
  import opened SendModeKinds
  import opened SendModes
  import Redis

  datatype NotificationTemplate = NotificationTemplate(
    bank: string,
    sendMode: SendModeEnum,
    template: string,
    searchBy: string,
    hasRequisite: bool,
    hasBalance: bool,
    notificationType: string,
    source: string,
    needToReplaceComma: bool)

  // ---------------------------------------------------------------------------------------------
  // JSON

  /** The derived serialisation: every member is written under its snake_case name. */
  function TemplateToJson(t: NotificationTemplate): (j: Json)
    ensures j.JObject? && TemplateMembers(j.fields, t)
    ensures Int64Numbers(j)
  {
    JObject(map[
      "bank" := JString(t.bank),
      "send_mode" := KindJson(t.sendMode),
      "template" := JString(t.template),
      "search_by" := JString(t.searchBy),
      "has_requisite" := JBool(t.hasRequisite),
      "has_balance" := JBool(t.hasBalance),
      "notification_type" := JString(t.notificationType),
      "source" := JString(t.source),
      "need_to_replace_comma" := JBool(t.needToReplaceComma)])
  }

  /**
   * The members a document must hold for it to decode as `t`: each member `TemplateToJson(t)`
   * writes, with the value written there, the kind also in its tagged form.
   */
  predicate TemplateMembers(f: map<string, Json>, t: NotificationTemplate) {
    && "bank" in f && f["bank"] == JString(t.bank)
    && "send_mode" in f && KindForm(f["send_mode"], t.sendMode)
    && "template" in f && f["template"] == JString(t.template)
    && "search_by" in f && f["search_by"] == JString(t.searchBy)
    && "has_requisite" in f && f["has_requisite"] == JBool(t.hasRequisite)
    && "has_balance" in f && f["has_balance"] == JBool(t.hasBalance)
    && "notification_type" in f && f["notification_type"] == JString(t.notificationType)
    && "source" in f && f["source"] == JString(t.source)
    && "need_to_replace_comma" in f && f["need_to_replace_comma"] == JBool(t.needToReplaceComma)
  }

  /** The derived deserialisation: every member is required; unknown members are ignored. */
  function TemplateFromJson(j: Json): (r: Result<NotificationTemplate, JsonError>)
    ensures r.Ok? ==> j.JObject? && TemplateMembers(j.fields, r.value)
  {
    if !j.JObject? then Err(NotAnObject)
    else
      var f := j.fields;
      var bank :- StringField(f, "bank");
      var sendMode :- KindField(f, "send_mode");
      var template :- StringField(f, "template");
      var searchBy :- StringField(f, "search_by");
      var hasRequisite :- BoolField(f, "has_requisite");
      var hasBalance :- BoolField(f, "has_balance");
      var notificationType :- StringField(f, "notification_type");
      var source :- StringField(f, "source");
      var needToReplaceComma :- BoolField(f, "need_to_replace_comma");
      Ok(NotificationTemplate(bank, sendMode, template, searchBy, hasRequisite, hasBalance,
                              notificationType, source, needToReplaceComma))
  }

  /** Each member reader finds the value the writer put under its name. */
  lemma TemplateJsonMembers(t: NotificationTemplate)
    ensures TemplateToJson(t).JObject?
    ensures var f := TemplateToJson(t).fields;
      && StringField(f, "bank") == Ok(t.bank)
      && KindField(f, "send_mode") == Ok(t.sendMode)
      && StringField(f, "template") == Ok(t.template)
      && StringField(f, "search_by") == Ok(t.searchBy)
      && BoolField(f, "has_requisite") == Ok(t.hasRequisite)
      && BoolField(f, "has_balance") == Ok(t.hasBalance)
      && StringField(f, "notification_type") == Ok(t.notificationType)
      && StringField(f, "source") == Ok(t.source)
      && BoolField(f, "need_to_replace_comma") == Ok(t.needToReplaceComma)
  {
  }

  /** Any object holding the members of `t`, whatever else it holds, decodes as `t`. */
  lemma TemplateFromMembers(f: map<string, Json>, t: NotificationTemplate)
    requires TemplateMembers(f, t)
    ensures TemplateFromJson(JObject(f)) == Ok(t)
  {
  }

  /** Decoding the JSON of a template gives it back. */
  lemma TemplateJsonRoundTrip(t: NotificationTemplate)
    ensures TemplateFromJson(TemplateToJson(t)) == Ok(t)
  {
    TemplateJsonMembers(t);
  }

  /** A document missing any one member does not decode. */
  lemma TemplateMembersRequired(j: Json, name: string)
    requires j.JObject? && name !in j.fields
    requires name in {"bank", "send_mode", "template", "search_by", "has_requisite", "has_balance",
                      "notification_type", "source", "need_to_replace_comma"}
    ensures TemplateFromJson(j).Err?
  {
  }

  // ---------------------------------------------------------------------------------------------
  // Relational row

  /** Every `row.get` of the conversion succeeds. */
  predicate ValidTemplateRow(row: Row) {
    && HasString(row, "bank")
    && HasKind(row, "send_mode")
    && HasString(row, "template")
    && HasString(row, "search_by")
    && HasBool(row, "has_requisite")
    && HasBool(row, "has_balance")
    && HasString(row, "notification_type")
    && HasString(row, "source")
    && HasBool(row, "need_to_replace_comma")
  }

  /** `From<&Row>`: each column is copied into the field of the same name. */
  function TemplateFromRowRef(row: Row): (t: NotificationTemplate)
    requires ValidTemplateRow(row)
    ensures t.bank == row["bank"].value.text && t.template == row["template"].value.text
    ensures t.searchBy == row["search_by"].value.text && t.source == row["source"].value.text
    ensures t.notificationType == row["notification_type"].value.text
    ensures Name(t.sendMode) == row["send_mode"].value.text
    ensures t.hasRequisite == row["has_requisite"].value.b && t.hasBalance == row["has_balance"].value.b
    ensures t.needToReplaceComma == row["need_to_replace_comma"].value.b
  {
    var kind := row["send_mode"];
    FromSqlOfText(kind.sqlType, kind.value.text);
    NotificationTemplate(
      bank := row["bank"].value.text,
      sendMode := FromSql(kind.sqlType, Utf8(kind.value.text)).value,
      template := row["template"].value.text,
      searchBy := row["search_by"].value.text,
      hasRequisite := row["has_requisite"].value.b,
      hasBalance := row["has_balance"].value.b,
      notificationType := row["notification_type"].value.text,
      source := row["source"].value.text,
      needToReplaceComma := row["need_to_replace_comma"].value.b)
  }

  /** `From<Row>`: the same conversion from an owned row, with the same result. */
  function TemplateFromRow(row: Row): (t: NotificationTemplate)
    requires ValidTemplateRow(row)
    ensures t == TemplateFromRowRef(row)
  {
    var kind := row["send_mode"];
    NotificationTemplate(
      bank := row["bank"].value.text,
      sendMode := FromSql(kind.sqlType, Utf8(kind.value.text)).value,
      template := row["template"].value.text,
      searchBy := row["search_by"].value.text,
      hasRequisite := row["has_requisite"].value.b,
      hasBalance := row["has_balance"].value.b,
      notificationType := row["notification_type"].value.text,
      source := row["source"].value.text,
      needToReplaceComma := row["need_to_replace_comma"].value.b)
  }

  /** A row a store keeps for a template accepts only the two kind names in its `send_mode` column. */
  lemma TemplateRowKindIsName(row: Row)
    requires ValidTemplateRow(row)
    ensures row["send_mode"].value.text == "KRAFT" || row["send_mode"].value.text == "TRADEMO"
  {
    var kind := row["send_mode"];
    FromSqlOfText(kind.sqlType, kind.value.text);
  }

  /** A row as a store holding `t` returns it. */
  function TemplateToRow(t: NotificationTemplate): Row {
    map[
      "bank" := Column(Text, TextValue(t.bank)),
      "send_mode" := Column(Varchar, TextValue(Name(t.sendMode))),
      "template" := Column(Text, TextValue(t.template)),
      "search_by" := Column(Text, TextValue(t.searchBy)),
      "has_requisite" := Column(Bool, BoolValue(t.hasRequisite)),
      "has_balance" := Column(Bool, BoolValue(t.hasBalance)),
      "notification_type" := Column(Text, TextValue(t.notificationType)),
      "source" := Column(Text, TextValue(t.source)),
      "need_to_replace_comma" := Column(Bool, BoolValue(t.needToReplaceComma))]
  }

  /** Each column of the stored row holds the field of the same name. */
  lemma TemplateToRowColumns(t: NotificationTemplate)
    ensures var row := TemplateToRow(t);
      && row["bank"] == Column(Text, TextValue(t.bank))
      && row["send_mode"] == Column(Varchar, TextValue(Name(t.sendMode)))
      && row["template"] == Column(Text, TextValue(t.template))
      && row["search_by"] == Column(Text, TextValue(t.searchBy))
      && row["has_requisite"] == Column(Bool, BoolValue(t.hasRequisite))
      && row["has_balance"] == Column(Bool, BoolValue(t.hasBalance))
      && row["notification_type"] == Column(Text, TextValue(t.notificationType))
      && row["source"] == Column(Text, TextValue(t.source))
      && row["need_to_replace_comma"] == Column(Bool, BoolValue(t.needToReplaceComma))
  {
  }

  /** Storing a template as a row and converting the row back gives the template. */
  lemma TemplateRowRoundTrip(t: NotificationTemplate)
    ensures ValidTemplateRow(TemplateToRow(t))
    ensures TemplateFromRow(TemplateToRow(t)) == t
  {
    TemplateToRowColumns(t);
    FromSqlOfName(Varchar, t.sendMode);
  }

  // ---------------------------------------------------------------------------------------------
  // Cache blob

  /** The one argument `write_redis_args` writes: the JSON text of the template. */
  function TemplateCacheArg(t: NotificationTemplate, codec: JsonCodec): seq<byte> {
    codec.toText(TemplateToJson(t))
  }

  /** `ToRedisArgs::write_redis_args`. */
  method WriteTemplateArgs(t: NotificationTemplate, codec: JsonCodec, out: Redis.ArgWriter)
    modifies out
    ensures out.args == old(out.args) + [TemplateCacheArg(t, codec)]
  {
    out.WriteArg(codec.toText(TemplateToJson(t)));
  }

  const UNDECODABLE_TEMPLATE := "Value type error"
  const UNKNOWN_FORMAT_TEMPLATE := "Invalid type for notification template"

  /**
   * `FromRedisValue`: only a bulk string is read, as the JSON text of a template; every failure
   * is a `TypeError`.
   */
  function TemplateFromRedisValue(v: Redis.Value, codec: JsonCodec): (r: Result<NotificationTemplate, Redis.RedisError>)
    ensures r.Err? ==> r.error.kind == Redis.TypeError
    ensures !v.BulkString? ==> r == Err(Redis.RedisError(Redis.TypeError, UNKNOWN_FORMAT_TEMPLATE))
    ensures v.BulkString? && r.Err? ==> r.error.description == UNDECODABLE_TEMPLATE
    ensures r.Ok? <==> v.BulkString? && codec.fromText(v.bytes).Some?
                       && TemplateFromJson(codec.fromText(v.bytes).value).Ok?
    ensures r.Ok? ==> TemplateFromJson(codec.fromText(v.bytes).value) == Ok(r.value)
  {
    match v
    case BulkString(bytes) =>
      (match codec.fromText(bytes)
       case Some(j) =>
         (match TemplateFromJson(j)
          case Ok(t) => Ok(t)
          case Err(_) => Err(Redis.RedisError(Redis.TypeError, UNDECODABLE_TEMPLATE)))
       case None => Err(Redis.RedisError(Redis.TypeError, UNDECODABLE_TEMPLATE)))
    case _ => Err(Redis.RedisError(Redis.TypeError, UNKNOWN_FORMAT_TEMPLATE))
  }

  /** The cache argument of a template, read back as a bulk string, is that template. */
  lemma TemplateCacheRoundTrip(t: NotificationTemplate, codec: JsonCodec)
    requires RoundTrips(codec)
    ensures TemplateFromRedisValue(Redis.BulkString(TemplateCacheArg(t, codec)), codec) == Ok(t)
  {
    TemplateJsonRoundTrip(t);
  }
}
