# send_mode_lib in Dafny

A model of the core of `send_mode_lib`, a Rust client library for a remote "send mode"
service. A send mode is an aggregate's delivery channel (kind `KRAFT` or `TRADEMO`, an access
token, an optional RSA private key, a heartbeat schedule). The library keeps one logical entity
consistent across three representations and talks to the service through a retrying executor.
The model covers:

- **Error taxonomy** (`errors.dfy`): the seven `LibError` variants and their display texts.
- **Send-mode kinds** (`send_mode_kind.dfy`): the SQL encoder (`to_sql`, `to_sql_checked`)
  appending into a byte buffer (a class with a `seq` field), the SQL decoder, `Display`,
  `FromStr` and the accepted column types.
- **Entities** (`send_mode.dfy`, `notification_types.dfy`): `SendMode`, `NewSendModeRequest`,
  `RenameSendModeRequest` and `NotificationTemplate`, with their JSON shapes, relational row
  conversions and cache blobs. The private key travels as PKCS#1 PEM text with LF line endings
  (`pem.dfy`).
- **Executor** (`tools.dfy`): `send_request` with its fixed-interval retry driver as a method
  with a loop proved against a specification function, `send_request_for_retry`'s
  classification, the `retry!` macro's loop, and `is_connection_err`.
- **API client** (`send_mode_client.dfy`): the five operations as pipelines of URL
  construction, the executor, status interpretation and body decoding.

The transports are replaced by values:
- JSON is a tree (`json.dfy`). The text writer and reader are a `JsonCodec` parameter; lemmas
  that need the reader to undo the writer take `RoundTrips(codec)` as a hypothesis, stated for
  documents whose numbers fit in an `i64` (serde_json reads larger integers as floats).
- A row is a map from column names to typed cells (`sql.dfy`).
- A cache value is the driver's value datatype (`redis.dfy`).
- The network is a function `net(i)`: the latency and result of the i-th send.
- Time is counted in milliseconds rather than waited for.

Some behaviours of the code that a reader of the API might not expect, which the model keeps:
- The retry strategy `FixedInterval::from_millis(100).take(5)` (src/tools/mod.rs:37-38) yields
  five delays, so one call makes up to six sends: the first and five retries.
- `from_sql` rejects an unknown name with the plain message "Invalid parameter"
  (src/send_modes/send_mode.rs:73-79), not with a `LibError`.
- `rsa_serialize` writes an absent key as JSON `null` (src/send_modes/send_mode.rs:102-114);
  the `private_key` member is never omitted.
- `to_sql_checked` does not consult `accepts` (src/send_modes/send_mode.rs:43-50): it writes the
  name for any column type, exactly as `to_sql` does.

## Model

| member | source | states |
|---|---|---|
| Errors.Display | src/send_modes/error.rs:4-19 | a `NotFound(r)` message is `r` followed by ", Not found"; every other message has no comma |
| Errors.DisplayIdentifiesError | src/send_modes/error.rs:4-19 | equal messages mean equal errors, except that all transport causes display the same "IOError" |
| SendModeKinds.ToSql | src/send_modes/send_mode.rs:24-34 | appends exactly the kind's name bytes after the bytes already in the buffer and returns `IsNull::No` |
| SendModeKinds.ToSqlChecked | src/send_modes/send_mode.rs:43-50 | the same append and result as `to_sql`, for every column type |
| SendModeKinds.EncodersAgree | src/send_modes/send_mode.rs:24-50 | both encoders, from the same buffer contents, leave the same bytes and the same result |
| SendModeKinds.AcceptedTypes | src/send_modes/send_mode.rs:36-41 | encoder and decoder accept exactly VARCHAR and TEXT |
| SendModeKinds.Name | src/send_modes/send_mode.rs:53-60 | each kind displays as its own variant name, "KRAFT" or "TRADEMO" |
| SendModeKinds.FromStr | src/send_modes/send_mode.rs:61-70 | succeeds exactly on "KRAFT" and "TRADEMO", case-sensitively, with the kind displaying as the input |
| SendModeKinds.DisplayRoundTrip | src/send_modes/send_mode.rs:53-70 | `from_str(display(v)) == Ok(v)` |
| SendModeKinds.FromSql | src/send_modes/send_mode.rs:73-79 | succeeds exactly on the two name byte strings, giving the kind whose encoding they are; any other input is `Err("Invalid parameter")` |
| SendModeKinds.SqlRoundTrip | src/send_modes/send_mode.rs:24-79 | decoding what `to_sql` appends gives the kind back, for every column type |
| SendModeKinds.NamesEncodeAsSqlBytes | src/send_modes/send_mode.rs:24-60 | the bytes `to_sql` writes are the UTF-8 encoding of the `Display` text |
| SendModeKinds.FromSqlOfText | src/send_modes/send_mode.rs:73-79 | a text column decodes exactly when its text is a kind's name, to the kind `FromStr` gives |
| SendModeKinds.FromSqlOfName | src/send_modes/send_mode.rs:73-79 | a column holding a kind's name decodes to that kind |
| SendModes.KindJson | src/send_modes/send_mode.rs:17-21 | a kind is written as a string that `FromStr` reads back as the same kind |
| SendModes.KindField | src/send_modes/send_mode.rs:17-21 | a kind member decodes exactly from the strings "KRAFT" and "TRADEMO" and from serde_json's tagged form `{"KRAFT": null}` / `{"TRADEMO": null}`, to the kind it names; any other value is an error |
| Pem.PemEncode | src/send_modes/send_mode.rs:107-108 | the PEM text of a key has LF line endings only, no carriage return |
| Pem.PemRoundTrip | src/send_modes/send_mode.rs:102-130 | parsing the PEM text of a key gives the key back |
| Pem.PemCanonical | src/send_modes/send_mode.rs:116-130 | a text that parses is exactly the PEM text of the parsed key |
| SendModes.RsaSerialize | src/send_modes/send_mode.rs:102-114 | `null` exactly for an absent key; a present key is a string, PEM text that parses back to that key |
| SendModes.RsaDeserialize | src/send_modes/send_mode.rs:116-130 | `null` is exactly the absent key; a string that parses as PEM gives that key; an accepted string is the canonical PEM of the key; a non-PEM string is an error |
| SendModes.RsaRoundTrip | src/send_modes/send_mode.rs:102-130 | deserialising a serialised key gives the key back, absent or present |
| SendModes.SendModeToJson | src/send_modes/send_mode.rs:86-99 | the written object holds every member decoding needs for the send mode, key as its PEM string or `null` |
| SendModes.SendModeFromJson | src/send_modes/send_mode.rs:86-99 | a decoded document is an object holding every member the encoder writes for the result, with the same value (the kind possibly tagged; `fingerprint` and `auto_heartbeat_interval` possibly absent when `None`) |
| SendModes.SendModeFromMembers | src/send_modes/send_mode.rs:86-99 | any object holding the members of a send mode, whatever else it holds, decodes to that send mode |
| SendModes.SendModeJsonRoundTrip | src/send_modes/send_mode.rs:86-130 | decoding the JSON of a send mode gives it back, key included |
| SendModes.SendModesFromItems | src/tools/send_mode_client.rs:86-89 | a list decodes exactly when every item does, to the items' send modes in the same order |
| SendModes.SendModeListRoundTrip | src/tools/send_mode_client.rs:86-89 | a list written as a JSON array decodes to the same list |
| SendModes.NewSendModeRequestJsonRoundTrip | src/send_modes/send_mode.rs:188-195 | the creation payload's JSON decodes back to the payload |
| SendModes.NewSendModeRequestBody | src/send_modes/send_mode.rs:197-201 | a receiver parsing the request body with the same codec gets the creation payload back |
| SendModes.SendModeFromRow | src/send_modes/send_mode.rs:132-146 | every column is copied into its field (the kind by name, the optional columns as NULL or their value); the key is absent exactly when the column's text is not PEM, and otherwise re-encodes to that text |
| SendModes.SendModeFromRowRef | src/send_modes/send_mode.rs:148-162 | the borrowed-row conversion gives the same send mode as the owned one |
| SendModes.SendModeToRowValid | src/send_modes/send_mode.rs:132-146 | a stored send mode's row passes every check the conversion makes; the store writes an absent key as empty text, never NULL |
| SendModes.SendModeRowRoundTrip | src/send_modes/send_mode.rs:132-146 | storing a send mode as a row (an absent key as empty text) and converting it back gives the send mode |
| SendModes.WriteSendModeArgs | src/send_modes/send_mode.rs:165-172 | writes exactly one argument, the JSON text of the send mode, after those already written |
| SendModes.SendModeFromRedisValue | src/send_modes/send_mode.rs:174-187 | succeeds exactly on a bulk string holding a send mode's JSON, and then returns what that JSON decodes to; every failure is a `TypeError` with the two fixed messages |
| SendModes.SendModeCacheRoundTrip | src/send_modes/send_mode.rs:165-187 | the written argument, read back as a bulk string, is the send mode |
| NotificationTypes.TemplateToJson | src/send_modes/notification_types.rs:8-19 | the written object holds all nine members decoding needs for the template |
| NotificationTypes.TemplateFromJson | src/send_modes/notification_types.rs:8-19 | a decoded document is an object holding all nine members the encoder writes for the result, with the same values (the kind possibly tagged) |
| NotificationTypes.TemplateFromMembers | src/send_modes/notification_types.rs:8-19 | any object holding the nine members of a template, whatever else it holds, decodes to that template |
| NotificationTypes.TemplateJsonRoundTrip | src/send_modes/notification_types.rs:8-19 | decoding the JSON of a template gives it back |
| NotificationTypes.TemplateMembersRequired | src/send_modes/notification_types.rs:8-19 | a document missing any of the nine members does not decode |
| NotificationTypes.TemplateFromRowRef | src/send_modes/notification_types.rs:21-35 | each of the nine columns is copied unchanged into its field |
| NotificationTypes.TemplateFromRow | src/send_modes/notification_types.rs:37-51 | the owned-row conversion gives the same template as the borrowed one |
| NotificationTypes.TemplateRowKindIsName | src/send_modes/notification_types.rs:25 | a convertible row's `send_mode` column holds "KRAFT" or "TRADEMO" |
| NotificationTypes.TemplateRowRoundTrip | src/send_modes/notification_types.rs:21-51 | storing a template as a row and converting it back gives the template |
| NotificationTypes.WriteTemplateArgs | src/send_modes/notification_types.rs:69-77 | writes exactly one argument, the template's JSON text, after those already written |
| NotificationTypes.TemplateFromRedisValue | src/send_modes/notification_types.rs:54-67 | succeeds exactly on a bulk string holding a template's JSON, and then returns what that JSON decodes to; a non-bulk value and an undecodable one are `TypeError`s with their fixed messages |
| NotificationTypes.TemplateCacheRoundTrip | src/send_modes/notification_types.rs:54-77 | the written argument, read back as a bulk string, is the template |
| Tools.TryClone | src/tools/mod.rs:29-35 | a request copies exactly when its body is not a one-shot stream, and the copy is the request |
| Tools.SendRequestForRetry | src/tools/mod.rs:9-24 | an answer within 500 ms is returned whatever its status; a late send is a transient `TimeOut`, a failed one a transient `IOError` of its cause; nothing is permanent |
| Tools.FixedInterval | src/tools/mod.rs:37-38 | the strategy is five equal 100 ms delays, no growth |
| Tools.SendRequest | src/tools/mod.rs:26-51 | the result, the number of sends and the time taken are those of the retry specification `Execute` |
| Tools.RunBounds | src/tools/mod.rs:39-47 | with a copyable request, one to `1 + delays` sends; a failure is `TimeOut` or `IOError`; a success is the last send's answer |
| Tools.ExecuteBounds | src/tools/mod.rs:26-51 | at most six sends; none, and `InternalServerError`, exactly when the request cannot be copied; otherwise failures are transient kinds and a success is the last send's answer |
| Tools.RunDeliveredAfter | src/tools/mod.rs:39-47 | after `n` failed sends an answer in time is returned, after `n + 1` sends and `n` delays |
| Tools.DeliveredAfterTransients | src/tools/mod.rs:26-51 | the first answer in time among the first six sends is the result, with its send count and elapsed time |
| Tools.FourTimeoutsThenSuccess | src/tools/mod.rs:36-49 | four missed deadlines then an answer: the answer, five sends, at least 2400 ms |
| Tools.RunExhausted | src/tools/mod.rs:39-47 | when no send answers in time, every delay is used and the last send's error is returned |
| Tools.RetriesExhausted | src/tools/mod.rs:26-51 | six failed sends end the call with the sixth send's transient error |
| Tools.IsConnectionErr | src/tools/mod.rs:85-93 | the five-word test holds exactly when the text contains "conn", "broken" or "time" |
| Tools.NotFoundConnectionErr | src/tools/mod.rs:85-93 | a "not found" message is a connection error exactly when its resource text is one |
| Tools.InvalidDeviceModeNotConnectionErr | src/send_modes/error.rs:17-18 | "Invalid device mode" is not a connection error |
| Tools.ConnectionErrOfLibError | src/tools/mod.rs:85-93 | among library errors, exactly `TimeOut` and a `NotFound` whose resource mentions a word display as connection errors |
| Tools.Final | src/tools/mod.rs:72-80 | the loop breaks with the evaluation's own result, or "deadline has elapsed" after a timeout |
| Tools.RetryLoop | src/tools/mod.rs:56-84 | the result and attempt count are those of the loop specification `RetryFrom` |
| Tools.RetryFromShape | src/tools/mod.rs:56-84 | every evaluation but the last timed out or failed to connect with attempts left; the last one stops the loop and gives the result |
| Tools.RetryLoopShape | src/tools/mod.rs:56-84 | one to `max(1, max_retries)` evaluations; a success is the last evaluation's value unchanged |
| Tools.OtherErrorsNotRetried | src/tools/mod.rs:67-72 | an error that is not a connection error is returned at the first evaluation |
| Tools.RetriesUsedUp | src/tools/mod.rs:56-84 | when every evaluation times out or fails to connect, exactly `max_retries` evaluations are made and the last one's error is returned |
| Client.Url | src/tools/send_mode_client.rs:27 | every formatted URL string starts with the base followed by "/api/v1/send_modes" |
| Client.RouteShapes | src/tools/send_mode_client.rs:27-99 | methods and URL shapes of the five operations, the id inserted as given |
| Client.UrlDeterminesId | src/tools/send_mode_client.rs:47-81 | equal formatted URL strings of the same route mean equal ids |
| Client.IdsAreNotEscaped | src/tools/send_mode_client.rs:47-66 | the formatted URL string of the id "x/heartbeat" is that of the heartbeat endpoint for "x" |
| Client.Build | src/tools/send_mode_client.rs:27-28 | a URL that does not parse is an `IOError` wrapping the library's error; otherwise the request is built as given |
| Client.ReadJson | src/tools/send_mode_client.rs:30-42 | 4xx/5xx is `InternalServerError`; an unreadable body is `IOError`; success exactly when the body decodes as the expected type |
| Client.CheckStatus | src/tools/send_mode_client.rs:68-76 | succeeds exactly on a status outside 400-599, otherwise `InternalServerError` |
| Client.Send | src/tools/send_mode_client.rs:29 | a build error is returned before any send; otherwise the executor's result |
| Client.NewSendMode | src/tools/send_mode_client.rs:24-43 | fails only with a transport error, a timeout or `InternalServerError`; succeeds only when the service answered the POST with a non-error status |
| Client.GetSendModeById | src/tools/send_mode_client.rs:44-62 | fails only with a transport error, a timeout or `InternalServerError`; succeeds only when the service answered with a non-error status |
| Client.SendHeartbeat | src/tools/send_mode_client.rs:63-77 | fails only with a transport error, a timeout or `InternalServerError`; succeeds exactly when the service answered with a non-error status |
| Client.GetSendModesByAggregateId | src/tools/send_mode_client.rs:78-96 | fails only with a transport error, a timeout or `InternalServerError`; succeeds only when the service answered with a non-error status |
| Client.DeleteSendMode | src/tools/send_mode_client.rs:97-110 | fails only with a transport error, a timeout or `InternalServerError`; succeeds exactly when the service answered the DELETE with a non-error status |
| Client.BuildErrorsPassThrough | src/tools/send_mode_client.rs:27-99 | every operation fails with the build's `IOError` when its URL does not parse |
| Client.ExecutorErrorsPassThrough | src/tools/send_mode_client.rs:29-100 | every operation returns an executor error unchanged |
| Client.ErrorStatusCollapses | src/tools/send_mode_client.rs:30-109 | every operation turns a 4xx/5xx answer into `InternalServerError`, whatever the body |
| Client.StatusOnlyOperations | src/tools/send_mode_client.rs:63-110 | `heartbeat` and `delete_send_mode` succeed on any other status without reading the body |
| Client.UndecodableBodyIsInternalError | src/tools/send_mode_client.rs:32-89 | a body that is not the expected JSON is `InternalServerError` in the three decoding operations |
| Client.GetByIdReturnsServedSendMode | src/tools/send_mode_client.rs:44-62 | a served send mode's JSON is returned as that send mode |
| Client.NewSendModeReturnsServedSendMode | src/tools/send_mode_client.rs:24-43 | the created send mode in the answer is what `new_send_mode` returns |
| Client.ByAggregateReturnsServedList | src/tools/send_mode_client.rs:78-96 | a served list is returned whole and in order |

## Left out

- Networking, timers and async execution: each send is the value `net(i)` and waiting is
  accounted as milliseconds; `send_request` only logs its elapsed time, which the model returns.
- The `retry!` macro's 100 ms pause and 5000 ms deadline: an evaluation that misses the deadline
  is the value `Elapsed`, the loop's time is not counted, and the retried expression's errors are
  modelled as their display text.
- Client.Build: the request holds the formatted URL string, not the URL the HTTP library parses
  from it. The library resolves "." and ".." segments, percent-encodes spaces and splits off "?"
  and "#", so an id such as ".." or "../../x" leaves the "/api/v1/send_modes" prefix, and ids such
  as "a b" and "a%20b" reach the same URL; the URL rows speak of the formatted string.
- The `SEND_MODE_URL` environment variable, read through a `Lazy` at each use and panicking when
  unset: the base URL is a field of the client value.
- RSA key mathematics and DER: a key is represented by the Base64 body of its PEM text.
- Pem.PemCanonical: the library's key keeps only n, e, d, p and q and recomputes the other CRT
  fields when it writes PEM, so a text whose stored CRT fields differ parses but re-encodes to a
  different text. Canonicity holds only of the model's text-keyed representation, and so do the
  clauses resting on it: "an accepted string is the canonical PEM of the key" in
  `SendModes.RsaDeserialize`, "otherwise re-encodes to that text" in `SendModes.SendModeFromRow`,
  and the `private_key` member of `SendModes.SendModeMembers`.
- Pem.PemDecode: accepts only the canonical LF form with 64-character lines; the RSA library's
  parser also accepts other line endings, so the model rejects some texts the library accepts.
  In the other direction it checks only the Base64 alphabet of the body, not its padding or the
  DER structure it encodes, so it accepts bodies such as "A" or "A=B=" that `from_pkcs1_pem`
  rejects; for such a `private_key` column `SendModes.SendModeFromRow` gives a key where the
  library gives none.
- JSON text grammar: the writer and reader are a codec parameter; serde's sequence form of a
  struct is not modelled, and unknown members are ignored as serde does.
- Timestamps are carried by their RFC 3339 text without checking its syntax.
- SendModes.SendModeFromJson: chrono parses `last_heartbeat` into an instant, converting any
  offset to UTC, and writes it back with "Z" and its own choice of fraction digits. The model
  keeps the text, so the `last_heartbeat` clause of `SendModes.SendModeMembers` ("the member holds
  the value the encoder writes") holds of the program only for texts already in that canonical
  "…Z" form; "2024-05-01T12:00:00+00:00" decodes, but re-encodes as "2024-05-01T12:00:00Z".
- SendModes.SendModeToRow: `private_key` is read as non-optional text (NULL makes `row.get`
  panic), so the model's store writes an absent key as empty text, which does not parse as PEM
  and reads back as no key. A store that writes NULL for an absent key leaves a row the
  conversion cannot read; such rows are outside the conversions' precondition.
- `row.get` panics on a missing column, a wrong type, a NULL in a non-optional column or an
  unknown kind name; the row conversions require a row on which no `get` fails. Text columns may
  also be of the extension types `citext`, `ltree`, `lquery` and `ltxtquery`, recognised by name.
- Serialisation failures (`unwrap` on the JSON writer and `to_pkcs1_pem`) are treated as
  impossible: encoding is total.
- src/send_modes/client.rs and src/send_modes/event.rs are not part of this model.
- Logging through `tracing`, and sharing the HTTP client across tasks.
- `RenameSendModeRequest` is declared only: no operation in the core uses it.
