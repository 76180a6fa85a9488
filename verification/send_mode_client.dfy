/**
 * `SendModeClient`, the façade over the remote send-mode service: each operation builds a URL
 * from the configured base and an id, sends once through the resilient executor, and then
 * interprets the status and, where there is one, the JSON body.
 */
module Client {
  import opened Wrappers
  import opened Strings
  import opened Errors
  import opened Json
  import opened SendModes
  import opened Tools

  const API_PATH := "/api/v1/send_modes"

  /**
   * The client's environment: the base address read from `SEND_MODE_URL`, the HTTP library's
   * verdict on a URL (`Some(e)` when it does not parse), and the JSON text codec.
   */
  datatype SendModeClient = SendModeClient(
    baseUrl: string,
    urlError: string -> Option<TransportError>,
    codec: JsonCodec)

  /** The five endpoints. */
  datatype Route = Create | ById(id: string) | Heartbeat(id: string) | ByAggregate(id: string) | Remove(id: string)

  /** The URL of a route; the id is inserted as given, without escaping. */
  function Url(base: string, route: Route): (url: string)
    ensures StartsWith(url, base + API_PATH)
  {
    match route
    case Create => base + API_PATH
    case ById(id) => base + API_PATH + "/" + id
    case Heartbeat(id) => base + API_PATH + "/" + id + "/heartbeat"
    case ByAggregate(id) => base + API_PATH + "/aggregate_id/" + id
    case Remove(id) => base + API_PATH + "/" + id
  }

  /** The method each route is sent with. */
  function Verb(route: Route): HttpMethod {
    match route
    case Create => Post
    case Remove(_) => Delete
    case _ => Get
  }

  /** `RequestBuilder::build()?`: a URL that does not parse becomes an `IOError`. */
  function Build(c: SendModeClient, verb: HttpMethod, url: string, body: RequestBody): (r: Result<Request, LibError>)
    ensures r.Err? <==> c.urlError(url).Some?
    ensures r.Err? ==> r.error == IOError(c.urlError(url).value)
    ensures r.Ok? ==> r.value == Request(verb, url, body)
  {
    match c.urlError(url)
    case Some(e) => Err(IOError(e))
    case None => Ok(Request(verb, url, body))
  }

  /** `error_for_status`: client and server error statuses. */
  predicate IsErrorStatus(status: StatusCode) {
    400 <= status < 600
  }

  /**
   * The status-then-body interpretation shared by the operations that return data: an error
   * status is `InternalServerError`, a body that cannot be read is `IOError`, and a body that
   * does not decode as the expected type is `InternalServerError`.
   */
  function ReadJson<T>(c: SendModeClient, response: Response, decode: Json -> Result<T, JsonError>): (r: Result<T, LibError>)
    ensures IsErrorStatus(response.status) ==> r == Err(InternalServerError)
    ensures !IsErrorStatus(response.status) && response.body.ReadFailed? ==> r == Err(IOError(response.body.cause))
    ensures r.Ok? <==> !IsErrorStatus(response.status) && response.body.Complete?
                       && c.codec.fromText(Utf8(response.body.text)).Some?
                       && decode(c.codec.fromText(Utf8(response.body.text)).value).Ok?
    ensures r.Ok? ==> decode(c.codec.fromText(Utf8(response.body.text)).value) == Ok(r.value)
  {
    if IsErrorStatus(response.status) then Err(InternalServerError)
    else match response.body
      case ReadFailed(e) => Err(IOError(e))
      case Complete(text) =>
        match c.codec.fromText(Utf8(text))
        case None => Err(InternalServerError)
        case Some(j) =>
          match decode(j)
          case Ok(v) => Ok(v)
          case Err(_) => Err(InternalServerError)
  }

  /** The status-only interpretation of `heartbeat` and `delete_send_mode`: the body is not read. */
  function CheckStatus(response: Response): (r: Result<(), LibError>)
    ensures r.Ok? <==> !IsErrorStatus(response.status)
    ensures r.Err? ==> r.error == InternalServerError
  {
    if IsErrorStatus(response.status) then Err(InternalServerError) else Ok(())
  }

  /**
   * The errors the client reports: a failed build, send or body read, a missed deadline, and
   * `InternalServerError`. It never reports `NotFound`, `Unauthorized`, `Forbidden` or
   * `InvalidDeviceMode`.
   */
  predicate ClientError(e: LibError) {
    e == InternalServerError || e == TimeOut || e.IOError?
  }

  /** The URL of the route parses and the service answers the call with a non-error status. */
  predicate Accepted(c: SendModeClient, route: Route, body: RequestBody, net: nat -> Exchange) {
    var url := Url(c.baseUrl, route);
    var answer := Execute(Request(Verb(route), url, body), net).result;
    c.urlError(url).None? && answer.Ok? && !IsErrorStatus(answer.value.status)
  }

  /** Builds the request of a route and runs it through the executor. */
  function Send(c: SendModeClient, route: Route, body: RequestBody, net: nat -> Exchange): (r: Result<Response, LibError>)
    ensures c.urlError(Url(c.baseUrl, route)).Some? ==> r == Err(IOError(c.urlError(Url(c.baseUrl, route)).value))
    ensures c.urlError(Url(c.baseUrl, route)).None? ==> r == Execute(Request(Verb(route), Url(c.baseUrl, route), body), net).result
    ensures r.Err? ==> ClientError(r.error)
  {
    var request :- Build(c, Verb(route), Url(c.baseUrl, route), body);
    ExecuteBounds(request, net);
    Execute(request, net).result
  }

  /** `new_send_mode`: POST the creation payload, decode the created send mode. */
  function NewSendMode(c: SendModeClient, request: NewSendModeRequest, net: nat -> Exchange): (r: Result<SendMode, LibError>)
    ensures r.Err? ==> ClientError(r.error)
    ensures r.Ok? ==> Accepted(c, Create, Bytes(NewSendModeRequestBody(request, c.codec)), net)
  {
    var response :- Send(c, Create, Bytes(NewSendModeRequestBody(request, c.codec)), net);
    ReadJson(c, response, SendModeFromJson)
  }

  /** `get_send_mode_by_id`. */
  function GetSendModeById(c: SendModeClient, id: string, net: nat -> Exchange): (r: Result<SendMode, LibError>)
    ensures r.Err? ==> ClientError(r.error)
    ensures r.Ok? ==> Accepted(c, ById(id), NoBody, net)
  {
    var response :- Send(c, ById(id), NoBody, net);
    ReadJson(c, response, SendModeFromJson)
  }

  /** `heartbeat`. */
  function SendHeartbeat(c: SendModeClient, id: string, net: nat -> Exchange): (r: Result<(), LibError>)
    ensures r.Err? ==> ClientError(r.error)
    ensures r.Ok? <==> Accepted(c, Heartbeat(id), NoBody, net)
  {
    var response :- Send(c, Heartbeat(id), NoBody, net);
    CheckStatus(response)
  }

  /** `get_send_mode_by_aggregate_id`: the body is a JSON array of send modes. */
  function GetSendModesByAggregateId(c: SendModeClient, id: string, net: nat -> Exchange): (r: Result<seq<SendMode>, LibError>)
    ensures r.Err? ==> ClientError(r.error)
    ensures r.Ok? ==> Accepted(c, ByAggregate(id), NoBody, net)
  {
    var response :- Send(c, ByAggregate(id), NoBody, net);
    ReadJson(c, response, SendModeListFromJson)
  }

  /** `delete_send_mode`. */
  function DeleteSendMode(c: SendModeClient, id: string, net: nat -> Exchange): (r: Result<(), LibError>)
    ensures r.Err? ==> ClientError(r.error)
    ensures r.Ok? <==> Accepted(c, Remove(id), NoBody, net)
  {
    var response :- Send(c, Remove(id), NoBody, net);
    CheckStatus(response)
  }

  // ---------------------------------------------------------------------------------------------
  // Properties

  /** The exchange the executor settles on, when the URL parses and the call gets an answer. */
  predicate Answered(c: SendModeClient, route: Route, body: RequestBody, net: nat -> Exchange, response: Response) {
    c.urlError(Url(c.baseUrl, route)).None?
    && Execute(Request(Verb(route), Url(c.baseUrl, route), body), net).result == Ok(response)
  }

  /** The five routes: method and URL shape, with the id as given. */
  lemma RouteShapes(base: string, id: string)
    ensures Verb(Create) == Post && Url(base, Create) == base + "/api/v1/send_modes"
    ensures Verb(ById(id)) == Get && Url(base, ById(id)) == base + "/api/v1/send_modes/" + id
    ensures Verb(Heartbeat(id)) == Get && Url(base, Heartbeat(id)) == base + "/api/v1/send_modes/" + id + "/heartbeat"
    ensures Verb(ByAggregate(id)) == Get && Url(base, ByAggregate(id)) == base + "/api/v1/send_modes/aggregate_id/" + id
    ensures Verb(Remove(id)) == Delete && Url(base, Remove(id)) == Url(base, ById(id))
  {
  }

  /** Distinct ids give distinct URLs for the same route (the id is the URL's tail). */
  lemma {:induction false} UrlDeterminesId(base: string, id1: string, id2: string)
    ensures Url(base, ById(id1)) == Url(base, ById(id2)) ==> id1 == id2
    ensures Url(base, ByAggregate(id1)) == Url(base, ByAggregate(id2)) ==> id1 == id2
    ensures Url(base, Heartbeat(id1)) == Url(base, Heartbeat(id2)) ==> id1 == id2
  {
    var p := base + API_PATH + "/";
    if Url(base, ById(id1)) == Url(base, ById(id2)) {
      assert p + id1 == Url(base, ById(id1)) && p + id2 == Url(base, ById(id2));
      assert id1 == (p + id1)[|p|..] && id2 == (p + id2)[|p|..];
    }
    var q := base + API_PATH + "/aggregate_id/";
    if Url(base, ByAggregate(id1)) == Url(base, ByAggregate(id2)) {
      assert id1 == (q + id1)[|q|..] && id2 == (q + id2)[|q|..];
    }
    var h := "/heartbeat";
    if Url(base, Heartbeat(id1)) == Url(base, Heartbeat(id2)) {
      var u1, u2 := Url(base, Heartbeat(id1)), Url(base, Heartbeat(id2));
      assert u1 == p + id1 + h && u2 == p + id2 + h;
      assert |id1| == |id2|;
      assert id1 == u1[|p|..|p| + |id1|] && id2 == u2[|p|..|p| + |id2|];
    }
  }

  /** An id holding a '/' is not escaped: a by-id request can reach the heartbeat endpoint. */
  lemma IdsAreNotEscaped(base: string)
    ensures Url(base, ById("x/heartbeat")) == Url(base, Heartbeat("x"))
  {
  }

  /** A URL that does not parse fails every operation with that `IOError`, before any send. */
  lemma BuildErrorsPassThrough(c: SendModeClient, id: string, request: NewSendModeRequest, net: nat -> Exchange)
    ensures c.urlError(Url(c.baseUrl, Create)).Some? ==>
              NewSendMode(c, request, net) == Err(IOError(c.urlError(Url(c.baseUrl, Create)).value))
    ensures c.urlError(Url(c.baseUrl, ById(id))).Some? ==>
              GetSendModeById(c, id, net) == Err(IOError(c.urlError(Url(c.baseUrl, ById(id))).value))
              && DeleteSendMode(c, id, net) == Err(IOError(c.urlError(Url(c.baseUrl, ById(id))).value))
    ensures c.urlError(Url(c.baseUrl, Heartbeat(id))).Some? ==>
              SendHeartbeat(c, id, net) == Err(IOError(c.urlError(Url(c.baseUrl, Heartbeat(id))).value))
    ensures c.urlError(Url(c.baseUrl, ByAggregate(id))).Some? ==>
              GetSendModesByAggregateId(c, id, net) == Err(IOError(c.urlError(Url(c.baseUrl, ByAggregate(id))).value))
  {
  }

  /** An executor error is returned unchanged by every operation, before any status check. */
  lemma ExecutorErrorsPassThrough(c: SendModeClient, id: string, request: NewSendModeRequest, net: nat -> Exchange, e: LibError)
    ensures (c.urlError(Url(c.baseUrl, Create)).None?
             && Execute(Request(Post, Url(c.baseUrl, Create), Bytes(NewSendModeRequestBody(request, c.codec))), net).result == Err(e))
            ==> NewSendMode(c, request, net) == Err(e)
    ensures (c.urlError(Url(c.baseUrl, ById(id))).None? && Execute(Request(Get, Url(c.baseUrl, ById(id)), NoBody), net).result == Err(e))
            ==> GetSendModeById(c, id, net) == Err(e)
    ensures (c.urlError(Url(c.baseUrl, Heartbeat(id))).None? && Execute(Request(Get, Url(c.baseUrl, Heartbeat(id)), NoBody), net).result == Err(e))
            ==> SendHeartbeat(c, id, net) == Err(e)
    ensures (c.urlError(Url(c.baseUrl, ByAggregate(id))).None? && Execute(Request(Get, Url(c.baseUrl, ByAggregate(id)), NoBody), net).result == Err(e))
            ==> GetSendModesByAggregateId(c, id, net) == Err(e)
    ensures (c.urlError(Url(c.baseUrl, Remove(id))).None? && Execute(Request(Delete, Url(c.baseUrl, Remove(id)), NoBody), net).result == Err(e))
            ==> DeleteSendMode(c, id, net) == Err(e)
  {
  }

  /** A 4xx or 5xx answer is `InternalServerError` in every operation, whatever the body. */
  lemma ErrorStatusCollapses(c: SendModeClient, id: string, request: NewSendModeRequest, net: nat -> Exchange, response: Response)
    requires IsErrorStatus(response.status)
    ensures Answered(c, Create, Bytes(NewSendModeRequestBody(request, c.codec)), net, response)
            ==> NewSendMode(c, request, net) == Err(InternalServerError)
    ensures Answered(c, ById(id), NoBody, net, response) ==> GetSendModeById(c, id, net) == Err(InternalServerError)
    ensures Answered(c, Heartbeat(id), NoBody, net, response) ==> SendHeartbeat(c, id, net) == Err(InternalServerError)
    ensures Answered(c, ByAggregate(id), NoBody, net, response)
            ==> GetSendModesByAggregateId(c, id, net) == Err(InternalServerError)
    ensures Answered(c, Remove(id), NoBody, net, response) ==> DeleteSendMode(c, id, net) == Err(InternalServerError)
  {
  }

  /** `heartbeat` and `delete_send_mode` succeed on any other status, even when the body is unreadable. */
  lemma StatusOnlyOperations(c: SendModeClient, id: string, net: nat -> Exchange, response: Response)
    requires !IsErrorStatus(response.status)
    ensures Answered(c, Heartbeat(id), NoBody, net, response) ==> SendHeartbeat(c, id, net) == Ok(())
    ensures Answered(c, Remove(id), NoBody, net, response) ==> DeleteSendMode(c, id, net) == Ok(())
  {
  }

  /**
   * A successful answer whose body is not the JSON of the expected type is `InternalServerError`,
   * for both single-send-mode operations and the list query.
   */
  lemma UndecodableBodyIsInternalError(c: SendModeClient, id: string, request: NewSendModeRequest, net: nat -> Exchange, response: Response)
    requires !IsErrorStatus(response.status) && response.body.Complete?
    ensures var parsed := c.codec.fromText(Utf8(response.body.text));
      (parsed.None? || SendModeFromJson(parsed.value).Err?) ==>
        && (Answered(c, Create, Bytes(NewSendModeRequestBody(request, c.codec)), net, response)
            ==> NewSendMode(c, request, net) == Err(InternalServerError))
        && (Answered(c, ById(id), NoBody, net, response) ==> GetSendModeById(c, id, net) == Err(InternalServerError))
    ensures var parsed := c.codec.fromText(Utf8(response.body.text));
      (parsed.None? || SendModeListFromJson(parsed.value).Err?) ==>
        (Answered(c, ByAggregate(id), NoBody, net, response)
         ==> GetSendModesByAggregateId(c, id, net) == Err(InternalServerError))
  {
  }

  /** A send mode the service answers with, as JSON text, is what `get_send_mode_by_id` returns. */
  lemma GetByIdReturnsServedSendMode(c: SendModeClient, id: string, net: nat -> Exchange, status: StatusCode, text: string, m: SendMode)
    requires RoundTrips(c.codec) && !IsErrorStatus(status)
    requires Utf8(text) == c.codec.toText(SendModeToJson(m))
    requires Answered(c, ById(id), NoBody, net, Response(status, Complete(text)))
    ensures GetSendModeById(c, id, net) == Ok(m)
  {
    SendModeJsonRoundTrip(m);
  }

  /** The same for `new_send_mode`, whose created send mode comes back in the answer. */
  lemma NewSendModeReturnsServedSendMode(c: SendModeClient, request: NewSendModeRequest, net: nat -> Exchange,
                                          status: StatusCode, text: string, m: SendMode)
    requires RoundTrips(c.codec) && !IsErrorStatus(status)
    requires Utf8(text) == c.codec.toText(SendModeToJson(m))
    requires Answered(c, Create, Bytes(NewSendModeRequestBody(request, c.codec)), net, Response(status, Complete(text)))
    ensures NewSendMode(c, request, net) == Ok(m)
  {
    SendModeJsonRoundTrip(m);
  }

  /** The aggregate query returns the served list whole and in order. */
  lemma ByAggregateReturnsServedList(c: SendModeClient, id: string, net: nat -> Exchange, status: StatusCode, text: string, ms: seq<SendMode>)
    requires RoundTrips(c.codec) && !IsErrorStatus(status)
    requires Utf8(text) == c.codec.toText(JArray(SendModeListJson(ms)))
    requires Answered(c, ByAggregate(id), NoBody, net, Response(status, Complete(text)))
    ensures GetSendModesByAggregateId(c, id, net) == Ok(ms)
  {
    SendModeListRoundTrip(ms);
  }
}
