/**
 * The resilient request executor (`send_request`), the SQL retry loop (`retry!`) and the
 * connection-error classifier (`is_connection_err`).
 *
 * The network and the clock are parameters: `net(i)` says how long the i-th send of a call takes
 * and what it yields, and `calls(i)` says how the i-th evaluation of the retried SQL expression
 * ends. Waiting is accounted in milliseconds rather than performed.
 */
module Tools {
  import opened Wrappers
  import opened Strings
  import opened Errors

  // ---------------------------------------------------------------------------------------------
  // HTTP values

  /** A status code as the HTTP library represents it. */
  type StatusCode = s: int | 100 <= s < 1000 witness 200

  /** The body of a response, as reading it to text turns out. */
  datatype BodyRead = Complete(text: string) | ReadFailed(cause: TransportError)

  datatype Response = Response(status: StatusCode, body: BodyRead)

  datatype HttpMethod = Get | Post | Delete

  /** A request body: absent, in memory, or a one-shot stream that cannot be replayed. */
  datatype RequestBody = NoBody | Bytes(bytes: seq<byte>) | Stream

  datatype Request = Request(verb: HttpMethod, url: string, body: RequestBody)

  /** `Request::try_clone`: only a streamed body cannot be copied. */
  function TryClone(r: Request): (c: Option<Request>)
    ensures c.Some? <==> !r.body.Stream?
    ensures c.Some? ==> c.value == r
  {
    if r.body.Stream? then None else Some(r)
  }

  /** What the transport does with one send: how long it takes and what it yields. */
  datatype Exchange = Exchange(latencyMs: nat, result: Result<Response, TransportError>)

  // ---------------------------------------------------------------------------------------------
  // send_request

  const SEND_DEADLINE_MS: nat := 500
  const RETRY_INTERVAL_MS: nat := 100
  /** `.take(5)`: five delays, so one first send and up to five retries. */
  const RETRY_LIMIT: nat := 5
  const MAX_SENDS: nat := 1 + RETRY_LIMIT

  /** How an attempt ends for the retry driver. */
  datatype Step = Done(response: Response) | Transient(error: LibError) | Permanent(error: LibError)

  /** A send that answers within the deadline, whatever the status. */
  predicate Delivers(x: Exchange) {
    x.latencyMs < SEND_DEADLINE_MS && x.result.Ok?
  }

  /**
   * `send_request_for_retry`: the send raced against a 500 ms deadline. An answer in time is
   * returned as it is; a transport failure and a missed deadline are both transient.
   */
  function SendRequestForRetry(x: Exchange): (s: Step)
    ensures s.Done? <==> Delivers(x)
    ensures s.Done? ==> s.response == x.result.value
    ensures !s.Permanent?
    ensures s.Transient? && x.latencyMs >= SEND_DEADLINE_MS ==> s.error == TimeOut
    ensures s.Transient? && x.latencyMs < SEND_DEADLINE_MS ==> s.error == IOError(x.result.error)
  {
    if x.latencyMs >= SEND_DEADLINE_MS then Transient(TimeOut)
    else match x.result
      case Ok(response) => Done(response)
      case Err(e) => Transient(IOError(e))
  }

  /** The time one attempt takes: the send's own latency, cut off at the deadline. */
  function WaitedMs(x: Exchange): (ms: nat)
    ensures ms <= SEND_DEADLINE_MS
    ensures ms == SEND_DEADLINE_MS || ms == x.latencyMs
  {
    if x.latencyMs < SEND_DEADLINE_MS then x.latencyMs else SEND_DEADLINE_MS
  }

  /** `FixedInterval::from_millis(ms).take(n)`: the delays before each retry. */
  function FixedInterval(ms: nat, n: nat): (delays: seq<nat>)
    ensures |delays| == n
    ensures forall i :: 0 <= i < n ==> delays[i] == ms
  {
    seq(n, _ => ms)
  }

  /** What a call of `send_request` returns, how many sends it made and how long it took. */
  datatype Outcome = Outcome(result: Result<Response, LibError>, sends: nat, elapsedMs: nat)

  /**
   * The retry driver from the send with index `k`, `t` ms after the start, with `delays` left in
   * the strategy. Each attempt first copies the request; a copy that fails is permanent.
   */
  function Run(req: Request, net: nat -> Exchange, k: nat, t: nat, delays: seq<nat>): Outcome
    decreases |delays|
  {
    match TryClone(req)
    case None => Outcome(Err(InternalServerError), k, t)
    case Some(_) =>
      var x := net(k);
      var t' := t + WaitedMs(x);
      match SendRequestForRetry(x)
      case Done(response) => Outcome(Ok(response), k + 1, t')
      case Permanent(e) => Outcome(Err(e), k + 1, t')
      case Transient(e) =>
        if delays == [] then Outcome(Err(e), k + 1, t')
        else Run(req, net, k + 1, t' + delays[0], delays[1..])
  }

  /** `send_request`: an up-front copy of the request, then the fixed-interval retry driver. */
  function Execute(request: Request, net: nat -> Exchange): Outcome {
    match TryClone(request)
    case None => Outcome(Err(InternalServerError), 0, 0)
    case Some(owned) => Run(owned, net, 0, 0, FixedInterval(RETRY_INTERVAL_MS, RETRY_LIMIT))
  }

  /** `send_request`, step by step. */
  method SendRequest(request: Request, net: nat -> Exchange)
    returns (r: Result<Response, LibError>, sends: nat, elapsedMs: nat)
    ensures Outcome(r, sends, elapsedMs) == Execute(request, net)
  {
    var upfront := TryClone(request);
    if upfront.None? {
      return Err(InternalServerError), 0, 0;
    }
    var owned := upfront.value;
    var strategy := FixedInterval(RETRY_INTERVAL_MS, RETRY_LIMIT);
    sends, elapsedMs := 0, 0;
    while true
      invariant Run(owned, net, sends, elapsedMs, strategy) == Execute(request, net)
      decreases |strategy|
    {
      var copy := TryClone(owned);
      if copy.None? {
        return Err(InternalServerError), sends, elapsedMs;
      }
      var x := net(sends);
      var step := SendRequestForRetry(x);
      sends, elapsedMs := sends + 1, elapsedMs + WaitedMs(x);
      match step {
        case Done(response) =>
          return Ok(response), sends, elapsedMs;
        case Permanent(e) =>
          return Err(e), sends, elapsedMs;
        case Transient(e) =>
          if strategy == [] {
            return Err(e), sends, elapsedMs;
          }
          elapsedMs := elapsedMs + strategy[0];
          strategy := strategy[1..];
      }
    }
  }

  /** The time the sends with indices `from` up to `to` take. */
  function WaitedBetween(net: nat -> Exchange, from: nat, to: nat): nat
    decreases if from < to then to - from else 0
  {
    if to <= from then 0 else WaitedMs(net(from)) + WaitedBetween(net, from + 1, to)
  }

  /** Once the request can be copied, the driver makes between one and `1 + |delays|` sends. */
  lemma {:induction false} RunBounds(req: Request, net: nat -> Exchange, k: nat, t: nat, delays: seq<nat>)
    requires TryClone(req).Some?
    ensures var o := Run(req, net, k, t, delays);
      && k + 1 <= o.sends <= k + 1 + |delays|
      && (o.result.Err? ==> o.result.error == TimeOut || o.result.error.IOError?)
      && (o.result.Ok? ==> Delivers(net(o.sends - 1)) && o.result.value == net(o.sends - 1).result.value)
    decreases |delays|
  {
    var x := net(k);
    if !Delivers(x) && delays != [] {
      RunBounds(req, net, k + 1, t + WaitedMs(x) + delays[0], delays[1..]);
    }
  }

  /**
   * At most six sends per call; no send at all exactly when the request cannot be copied, which
   * is also the only way to get `InternalServerError`. Any other failure is the transient error of
   * the last attempt, and a success is the answer of the last send.
   */
  lemma ExecuteBounds(request: Request, net: nat -> Exchange)
    ensures var o := Execute(request, net);
      && o.sends <= MAX_SENDS
      && (o.sends == 0 <==> request.body.Stream?)
      && (o.result == Err(InternalServerError) <==> request.body.Stream?)
      && (o.result.Err? && !request.body.Stream? ==> o.result.error == TimeOut || o.result.error.IOError?)
      && (o.result.Ok? ==> Delivers(net(o.sends - 1)) && o.result.value == net(o.sends - 1).result.value)
  {
    if !request.body.Stream? {
      RunBounds(request, net, 0, 0, FixedInterval(RETRY_INTERVAL_MS, RETRY_LIMIT));
    }
  }

  /**
   * After `n` failed sends, an answer in time is returned, whatever its status, after
   * `n + 1` sends and `n` equal waits.
   */
  lemma {:induction false} RunDeliveredAfter(req: Request, net: nat -> Exchange, k: nat, t: nat, delays: seq<nat>, d: nat, n: nat)
    requires TryClone(req).Some?
    requires n <= |delays| && forall i :: 0 <= i < |delays| ==> delays[i] == d
    requires forall i :: k <= i < k + n ==> !Delivers(net(i))
    requires Delivers(net(k + n))
    ensures Run(req, net, k, t, delays)
            == Outcome(Ok(net(k + n).result.value), k + n + 1, t + WaitedBetween(net, k, k + n + 1) + n * d)
    decreases n
  {
    if n > 0 {
      var x := net(k);
      assert !Delivers(x);
      RunDeliveredAfter(req, net, k + 1, t + WaitedMs(x) + delays[0], delays[1..], d, n - 1);
    }
  }

  /** A call whose first `n <= 5` sends fail and whose next send answers in time returns that answer. */
  lemma DeliveredAfterTransients(request: Request, net: nat -> Exchange, n: nat)
    requires !request.body.Stream? && n <= RETRY_LIMIT
    requires forall i :: 0 <= i < n ==> !Delivers(net(i))
    requires Delivers(net(n))
    ensures Execute(request, net)
            == Outcome(Ok(net(n).result.value), n + 1, WaitedBetween(net, 0, n + 1) + n * RETRY_INTERVAL_MS)
  {
    RunDeliveredAfter(request, net, 0, 0, FixedInterval(RETRY_INTERVAL_MS, RETRY_LIMIT), RETRY_INTERVAL_MS, n);
  }

  /** Each send missing its deadline costs the full deadline. */
  lemma {:induction false} WaitedAtLeast(net: nat -> Exchange, from: nat, to: nat)
    requires forall i :: from <= i < to ==> net(i).latencyMs >= SEND_DEADLINE_MS
    ensures WaitedBetween(net, from, to) >= (to - from) * SEND_DEADLINE_MS
    decreases if from < to then to - from else 0
  {
    if from < to {
      WaitedAtLeast(net, from + 1, to);
    }
  }

  /**
   * Four sends that miss their deadline followed by one answered in time: the answer is returned
   * after five sends, and at least 4 x 500 ms of deadlines and 4 x 100 ms of waiting have passed.
   */
  lemma FourTimeoutsThenSuccess(request: Request, net: nat -> Exchange)
    requires !request.body.Stream?
    requires forall i :: 0 <= i < 4 ==> net(i).latencyMs >= SEND_DEADLINE_MS
    requires Delivers(net(4))
    ensures Execute(request, net).result == Ok(net(4).result.value)
    ensures Execute(request, net).sends == 5
    ensures Execute(request, net).elapsedMs >= 2400
  {
    DeliveredAfterTransients(request, net, 4);
    WaitedAtLeast(net, 0, 4);
    assert WaitedBetween(net, 0, 5) == WaitedBetween(net, 0, 4) + WaitedMs(net(4)) by {
      WaitedSplit(net, 0, 4, 5);
    }
  }

  lemma {:induction false} WaitedSplit(net: nat -> Exchange, from: nat, mid: nat, to: nat)
    requires from <= mid <= to
    ensures WaitedBetween(net, from, to) == WaitedBetween(net, from, mid) + WaitedBetween(net, mid, to)
    decreases mid - from
  {
    if from < mid {
      WaitedSplit(net, from + 1, mid, to);
    }
  }

  /** When no send is answered in time, the driver stops after the last delay with the last error. */
  lemma {:induction false} RunExhausted(req: Request, net: nat -> Exchange, k: nat, t: nat, delays: seq<nat>)
    requires TryClone(req).Some?
    requires forall i :: k <= i <= k + |delays| ==> !Delivers(net(i))
    ensures Run(req, net, k, t, delays).sends == k + 1 + |delays|
    ensures Run(req, net, k, t, delays).result == Err(SendRequestForRetry(net(k + |delays|)).error)
    decreases |delays|
  {
    if delays != [] {
      var x := net(k);
      RunExhausted(req, net, k + 1, t + WaitedMs(x) + delays[0], delays[1..]);
    }
  }

  /** Six failed sends: the call ends with the sixth send's error (`TimeOut` or `IOError`). */
  lemma RetriesExhausted(request: Request, net: nat -> Exchange)
    requires !request.body.Stream?
    requires forall i :: 0 <= i < MAX_SENDS ==> !Delivers(net(i))
    ensures Execute(request, net).sends == MAX_SENDS
    ensures Execute(request, net).result == Err(SendRequestForRetry(net(MAX_SENDS - 1)).error)
  {
    RunExhausted(request, net, 0, 0, FixedInterval(RETRY_INTERVAL_MS, RETRY_LIMIT));
  }

  // ---------------------------------------------------------------------------------------------
  // is_connection_err

  /**
   * `is_connection_err`: the error's text mentions one of five words. Two of them are redundant:
   * "connection" contains "conn" and "timed" contains "time".
   */
  function IsConnectionErr(message: string): (b: bool)
    ensures b <==> Contains(message, "conn") || Contains(message, "broken") || Contains(message, "time")
  {
    assert Contains(message, "connection") ==> Contains(message, "conn") by {
      if Contains(message, "connection") {
        assert "connection" == "conn" + "ection";
        ContainsLongerPattern(message, "conn", "ection");
      }
    }
    assert Contains(message, "timed") ==> Contains(message, "time") by {
      if Contains(message, "timed") {
        assert "timed" == "time" + "d";
        ContainsLongerPattern(message, "time", "d");
      }
    }
    || Contains(message, "connection")
    || Contains(message, "broken")
    || Contains(message, "time")
    || Contains(message, "timed")
    || Contains(message, "conn")
  }

  /** Neither "conn" nor "connection" occurs where 'c' is never followed by 'o'. */
  lemma NoConnWord(s: string)
    requires forall i :: 0 <= i < |s| - 1 ==> !(s[i] == 'c' && s[i + 1] == 'o')
    ensures !Contains(s, "conn") && !Contains(s, "connection")
  {
    AbsentPairExcludes(s, "conn", 0);
    AbsentPairExcludes(s, "connection", 0);
  }

  /** Neither "time" nor "timed" occurs where the `j`-th letter of "time" never does. */
  lemma NoTimeWord(s: string, j: nat)
    requires j < 4 && forall i :: 0 <= i < |s| ==> s[i] != "time"[j]
    ensures !Contains(s, "time") && !Contains(s, "timed")
  {
    AbsentCharExcludes(s, "time", j);
    AbsentCharExcludes(s, "timed", j);
  }

  /** "broken" does not occur where there is no 'k'. */
  lemma NoBrokenWord(s: string)
    requires forall i :: 0 <= i < |s| ==> s[i] != 'k'
    ensures !Contains(s, "broken")
  {
    AbsentCharExcludes(s, "broken", 3);
  }

  /** None of the words occurs in a text lacking 'c', 'k' and 'm'. */
  lemma NoWordWithout(s: string)
    requires forall i :: 0 <= i < |s| ==> s[i] != 'c' && s[i] != 'k' && s[i] != 'm'
    ensures !IsConnectionErr(s)
  {
    NoConnWord(s);
    NoTimeWord(s, 2);
    NoBrokenWord(s);
  }

  /** The "not found" suffix starts with a comma, which no word uses. */
  lemma NotFoundSuffixStartsWithComma()
    ensures NOT_FOUND_SUFFIX != [] && NOT_FOUND_SUFFIX[0] == ','
    ensures forall k :: 0 <= k < |"connection"| ==> "connection"[k] != ','
    ensures forall k :: 0 <= k < |"broken"| ==> "broken"[k] != ','
    ensures forall k :: 0 <= k < |"time"| ==> "time"[k] != ','
    ensures forall k :: 0 <= k < |"timed"| ==> "timed"[k] != ','
    ensures forall k :: 0 <= k < |"conn"| ==> "conn"[k] != ','
  {
  }

  lemma NotFoundSuffixHasNoWord()
    ensures !IsConnectionErr(NOT_FOUND_SUFFIX)
  {
    NoWordWithout(NOT_FOUND_SUFFIX);
  }

  /** A "not found" error is a connection error exactly when its resource text is one. */
  lemma NotFoundConnectionErr(r: string)
    ensures IsConnectionErr(r + NOT_FOUND_SUFFIX) <==> IsConnectionErr(r)
  {
    NotFoundSuffixStartsWithComma();
    NotFoundSuffixHasNoWord();
    ContainsAcrossSeparator(r, NOT_FOUND_SUFFIX, "connection");
    ContainsAcrossSeparator(r, NOT_FOUND_SUFFIX, "broken");
    ContainsAcrossSeparator(r, NOT_FOUND_SUFFIX, "time");
    ContainsAcrossSeparator(r, NOT_FOUND_SUFFIX, "timed");
    ContainsAcrossSeparator(r, NOT_FOUND_SUFFIX, "conn");
  }

  lemma InvalidDeviceModeNotConnectionErr()
    ensures !IsConnectionErr("Invalid device mode")
  {
    var s := "Invalid device mode";
    assert forall i :: 0 <= i < |s| ==> s[i] != 'k' && s[i] != 't';
    assert forall i :: 0 <= i < |s| - 1 ==> !(s[i] == 'c' && s[i + 1] == 'o');
    NoConnWord(s);
    NoTimeWord(s, 0);
    NoBrokenWord(s);
  }

  /**
   * Which library errors the classifier calls connection errors: a timeout, and a "not found"
   * whose resource text itself mentions one of the words.
   */
  lemma ConnectionErrOfLibError(e: LibError)
    ensures IsConnectionErr(Display(e)) <==> e.TimeOut? || (e.NotFound? && IsConnectionErr(e.resource))
  {
    match e
    case TimeOut =>
      assert "request timeout"[8..][..4] == "time";
      ContainsAt("request timeout", "time", 8);
    case NotFound(r) =>
      NotFoundConnectionErr(r);
    case InvalidDeviceMode =>
      InvalidDeviceModeNotConnectionErr();
    case _ =>
      NoWordWithout(Display(e));
  }

  // ---------------------------------------------------------------------------------------------
  // retry!

  /** How one evaluation of the retried expression, under its 5000 ms deadline, ends. */
  datatype Call<T> = Finished(result: Result<T, string>) | Elapsed

  /** The text of the deadline error. */
  const ELAPSED_MESSAGE := "deadline has elapsed"

  /** Whether the loop goes round again after its `attempt`-th evaluation ended as `c`. */
  predicate Retries<T>(c: Call<T>, attempt: int, maxRetries: int) {
    attempt < maxRetries && (c.Elapsed? || (c.result.Err? && IsConnectionErr(c.result.error)))
  }

  /** What the loop breaks with when it stops after `c`. */
  function Final<T>(c: Call<T>): (r: Result<T, string>)
    ensures c.Elapsed? ==> r == Err(ELAPSED_MESSAGE)
    ensures c.Finished? ==> r == c.result
  {
    match c
    case Elapsed => Err(ELAPSED_MESSAGE)
    case Finished(result) => result
  }

  datatype LoopOutcome<T> = LoopOutcome(result: Result<T, string>, attempts: nat)

  /** The loop of `retry!` after `done` evaluations. */
  function RetryFrom<T>(calls: nat -> Call<T>, maxRetries: int, done: nat): LoopOutcome<T>
    decreases if done < maxRetries then maxRetries - done else 0
  {
    var c := calls(done);
    if Retries(c, done + 1, maxRetries) then RetryFrom(calls, maxRetries, done + 1)
    else LoopOutcome(Final(c), done + 1)
  }

  /** `retry!(expr, max_retries)`, step by step. */
  method RetryLoop<T>(calls: nat -> Call<T>, maxRetries: int) returns (r: Result<T, string>, attempt: nat)
    ensures LoopOutcome(r, attempt) == RetryFrom(calls, maxRetries, 0)
  {
    attempt := 0;
    while true
      invariant attempt == 0 || attempt < maxRetries
      invariant RetryFrom(calls, maxRetries, attempt) == RetryFrom(calls, maxRetries, 0)
      decreases maxRetries - attempt
    {
      attempt := attempt + 1;
      var c := calls(attempt - 1);
      match c {
        case Finished(Ok(v)) =>
          return Ok(v), attempt;
        case Finished(Err(e)) =>
          if attempt < maxRetries && IsConnectionErr(e) {
            continue;
          }
          return Err(e), attempt;
        case Elapsed =>
          if attempt < maxRetries {
            continue;
          }
          return Err(ELAPSED_MESSAGE), attempt;
      }
    }
  }

  /**
   * The loop makes at least one and at most `max(1, max_retries)` evaluations; every evaluation
   * but the last ended in a timeout or a connection error, and the result is the last one's.
   */
  lemma {:induction false} RetryFromShape<T>(calls: nat -> Call<T>, maxRetries: int, done: nat)
    requires done == 0 || done < maxRetries
    ensures var o := RetryFrom(calls, maxRetries, done);
      && done + 1 <= o.attempts
      && (o.attempts == done + 1 || o.attempts <= maxRetries)
      && (forall i :: done <= i < o.attempts - 1 ==> Retries(calls(i), i + 1, maxRetries))
      && !Retries(calls(o.attempts - 1), o.attempts, maxRetries)
      && o.result == Final(calls(o.attempts - 1))
    decreases if done < maxRetries then maxRetries - done else 0
  {
    if Retries(calls(done), done + 1, maxRetries) {
      RetryFromShape(calls, maxRetries, done + 1);
    }
  }

  /** The whole loop, from its first evaluation. */
  lemma RetryLoopShape<T>(calls: nat -> Call<T>, maxRetries: int)
    ensures var o := RetryFrom(calls, maxRetries, 0);
      && 1 <= o.attempts
      && (o.attempts == 1 || o.attempts <= maxRetries)
      && (forall i :: 0 <= i < o.attempts - 1 ==> Retries(calls(i), i + 1, maxRetries))
      && o.result == Final(calls(o.attempts - 1))
      && (o.result.Ok? ==> calls(o.attempts - 1) == Finished(o.result))
  {
    RetryFromShape(calls, maxRetries, 0);
  }

  /** An error that is not a connection error is returned at once, without a retry. */
  lemma OtherErrorsNotRetried<T>(calls: nat -> Call<T>, maxRetries: int, e: string)
    requires calls(0) == Finished(Err(e)) && !IsConnectionErr(e)
    ensures RetryFrom(calls, maxRetries, 0) == LoopOutcome(Err(e), 1)
  {
  }

  /** When every evaluation times out or fails to connect, the loop gives up after `max_retries`. */
  lemma {:induction false} RetriesUsedUp<T>(calls: nat -> Call<T>, maxRetries: int, done: nat)
    requires done < maxRetries
    requires forall i :: done <= i < maxRetries ==>
               calls(i).Elapsed? || (calls(i).result.Err? && IsConnectionErr(calls(i).result.error))
    ensures RetryFrom(calls, maxRetries, done) == LoopOutcome(Final(calls(maxRetries - 1)), maxRetries)
    decreases maxRetries - done
  {
    if done + 1 < maxRetries {
      RetriesUsedUp(calls, maxRetries, done + 1);
    }
  }
}
