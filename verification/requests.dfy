/**
 * What one call of `makeRequest` does, as a function of the table before
 * the call: sweep, fingerprint, look up, and on a miss up to
 * `retries + 1` attempts, with at most one cache write.
 */
module Requests {
  import opened Wrappers
  import opened JsonValues
  import opened RequestHash
  import opened CacheTable
  import opened Attempts

  /** The request descriptor; a payload of `None` is `JNull`. */
  datatype Request = Request(endpoint: string, url: string, verb: string, payload: Json, accessToken: Option<string>)

  /** The keyword arguments `expectResponse`, `successCodes`, `cacheTime` and `retries`. */
  datatype Settings = Settings(expectResponse: bool, successCodes: seq<int>, cacheTime: int, retries: int)

  /**
   * What the call cannot see into: the clock (one reading per call), the
   * network (the outcome of each attempt by its index), `json.loads`, the
   * HTTP-date parser, and `sha256(json.dumps(...))`.
   */
  datatype World = World(
    now: int,
    transport: nat -> Attempt,
    decode: string -> Option<Json>,
    parseDate: string -> Option<int>,
    digest: Json -> string)

  /** `responseData["Data"]`. */
  datatype Data =
    | NoData
    | Decoded(value: Json)
    | RawText(text: string)
    | Failed(error: string, lastException: Option<string>, lastStatus: Option<int>, lastResponse: Option<string>)

  /** The returned `responseData`, or the decoding error `checkCache` lets escape. */
  datatype Outcome = Reply(success: bool, data: Data) | CacheDecodeRaised(body: string)

  /** The table after the call, what it returned, and how many attempts it made. */
  datatype Run = Run(rows: seq<Row>, outcome: Outcome, calls: nat)

  const RequestFailed: string := "Request failed"

  function Fingerprint(req: Request, w: World): string {
    HashRequest(w.digest, req.url, req.verb, req.payload, req.accessToken)
  }

  /** `Data` of an accepted response with a body: none if empty, decoded JSON, else the raw text. */
  function BodyData(text: string, decode: string -> Option<Json>): Data {
    if text == "" then NoData
    else match decode(text)
      case Some(j) => Decoded(j)
      case None => RawText(text)
  }

  /** `Data` of an accepted response and the expiry it is cached under (`None`: no write). */
  function Accept(text: string, expires: Option<string>, s: Settings, w: World): (Data, Option<int>) {
    if !s.expectResponse then (NoData, Some(w.now + s.cacheTime))
    else (BodyData(text, w.decode), CacheExpiry(expires, w.parseDate, w.now, s.cacheTime))
  }

  /** The retry loop and what follows it, on a table that has been swept. */
  function Fetch(swept: seq<Row>, endpoint: string, requestHash: string, s: Settings, w: World): Run {
    var limit := AttemptLimit(s.retries);
    match FirstAccepted(w.transport, s.successCodes, 0, limit)
    case Some(k) =>
      var response := w.transport(k);
      var (data, expiry) := Accept(response.text, response.expires, s, w);
      var written := if expiry.Some? then [Row(endpoint, requestHash, expiry.value, response.text)] else [];
      Run(swept + written, Reply(true, data), k + 1)
    case None =>
      var memory := Remembered(w.transport, limit);
      Run(swept, Reply(false, Failed(RequestFailed, memory.lastException, memory.lastStatus, memory.lastResponse)), limit)
  }

  /** The loop stops at attempt `k` when it is the first accepted one. */
  lemma FetchStopsAt(swept: seq<Row>, endpoint: string, requestHash: string, s: Settings, w: World, k: nat)
    requires k < AttemptLimit(s.retries) && Accepted(w.transport(k), s.successCodes)
    requires forall j :: 0 <= j < k ==> !Accepted(w.transport(j), s.successCodes)
    ensures var response := w.transport(k);
            var (data, expiry) := Accept(response.text, response.expires, s, w);
            Fetch(swept, endpoint, requestHash, s, w) ==
            Run(swept + (if expiry.Some? then [Row(endpoint, requestHash, expiry.value, response.text)] else []),
                Reply(true, data), k + 1)
  {
    assert FirstAccepted(w.transport, s.successCodes, 0, AttemptLimit(s.retries)) == Some(k);
  }

  /** The lookup `makeRequest` does after its sweep. */
  function CacheAnswer(rows: seq<Row>, req: Request, w: World): LookupResult {
    Lookup(Sweep(rows, w.now), req.endpoint, Fingerprint(req, w), w.now, w.decode)
  }

  /**
   * One call of `makeRequest`. A cached `false` or `0` compares equal to the
   * miss sentinel `False` and is fetched again.
   */
  function Execute(rows: seq<Row>, req: Request, s: Settings, w: World): Run {
    var swept := Sweep(rows, w.now);
    var requestHash := Fingerprint(req, w);
    match Lookup(swept, req.endpoint, requestHash, w.now, w.decode)
    case Undecodable(body) => Run(swept, CacheDecodeRaised(body), 0)
    case Hit(data) =>
      if EqualsFalse(data) then Fetch(swept, req.endpoint, requestHash, s, w)
      else Run(swept, Reply(true, Decoded(data)), 0)
    case Miss => Fetch(swept, req.endpoint, requestHash, s, w)
  }

  /**
   * A cache hit returns the cached document: no attempt, no write, only the
   * sweep changed the table. The lookup sees the same as it would have
   * seen without the sweep.
   */
  lemma CacheHitMakesNoAttempts(rows: seq<Row>, req: Request, s: Settings, w: World)
    requires Lookup(rows, req.endpoint, Fingerprint(req, w), w.now, w.decode).Hit?
    requires !EqualsFalse(Lookup(rows, req.endpoint, Fingerprint(req, w), w.now, w.decode).data)
    ensures Execute(rows, req, s, w) ==
            Run(Sweep(rows, w.now), Reply(true, Decoded(Lookup(rows, req.endpoint, Fingerprint(req, w), w.now, w.decode).data)), 0)
  {
    LookupAfterSweep(rows, req.endpoint, Fingerprint(req, w), w.now, w.decode);
  }

  /** The sweep runs once, the table gains at most one row, and never more than `retries + 1` attempts are made. */
  lemma AttemptsAndWritesBounded(rows: seq<Row>, req: Request, s: Settings, w: World)
    ensures Execute(rows, req, s, w).calls <= AttemptLimit(s.retries)
    ensures Sweep(rows, w.now) <= Execute(rows, req, s, w).rows
    ensures |Execute(rows, req, s, w).rows| <= |Sweep(rows, w.now)| + 1
  {
  }

  /**
   * A call that went to the network succeeded exactly when its last attempt
   * was accepted, and every attempt before that one was not; a failed
   * call used every attempt it had.
   */
  lemma FirstAcceptedEndsTheLoop(rows: seq<Row>, req: Request, s: Settings, w: World)
    requires Execute(rows, req, s, w).calls > 0
    ensures var r := Execute(rows, req, s, w);
            r.outcome.Reply? && (r.outcome.success <==> Accepted(w.transport(r.calls - 1), s.successCodes))
    ensures var r := Execute(rows, req, s, w);
            forall j :: 0 <= j < r.calls - 1 ==> !Accepted(w.transport(j), s.successCodes)
    ensures var r := Execute(rows, req, s, w);
            !r.outcome.success ==> r.calls == AttemptLimit(s.retries)
  {
  }

  /**
   * The one possible write: on an accepted attempt, a row for this
   * endpoint and fingerprint holding that attempt's raw text.
   */
  lemma AtMostOneWrite(rows: seq<Row>, req: Request, s: Settings, w: World)
    ensures var r := Execute(rows, req, s, w);
            r.rows == Sweep(rows, w.now) ||
            (r.calls > 0 && r.outcome == Reply(true, r.outcome.data) && w.transport(r.calls - 1).Response? &&
             var n := |Sweep(rows, w.now)|;
             |r.rows| == n + 1 && r.rows[..n] == Sweep(rows, w.now) &&
             r.rows[n].endpoint == req.endpoint && r.rows[n].hash == Fingerprint(req, w) &&
             r.rows[n].response == w.transport(r.calls - 1).text)
  {
  }

  /**
   * With `expectResponse` false an accepted response gives no data and is
   * always cached until `now + cacheTime`; its `Expires` header is not read.
   */
  lemma AcceptedWithoutBody(rows: seq<Row>, req: Request, s: Settings, w: World)
    requires !s.expectResponse
    requires Execute(rows, req, s, w).calls > 0 && Execute(rows, req, s, w).outcome == Reply(true, Execute(rows, req, s, w).outcome.data)
    ensures var r := Execute(rows, req, s, w);
            r.outcome.data == NoData &&
            r.rows == Sweep(rows, w.now) + [Row(req.endpoint, Fingerprint(req, w), w.now + s.cacheTime, w.transport(r.calls - 1).text)]
  {
  }

  /**
   * With `expectResponse` true an accepted response gives no data when its
   * text is empty, the decoded document when it decodes, and the raw text
   * otherwise. The raw text is cached until the parsed `Expires` header,
   * or until `now + cacheTime` when there is no header; a header that does
   * not parse means no write, and the call still succeeds.
   */
  lemma AcceptedWithBody(rows: seq<Row>, req: Request, s: Settings, w: World)
    requires s.expectResponse
    requires Execute(rows, req, s, w).calls > 0 && Execute(rows, req, s, w).outcome == Reply(true, Execute(rows, req, s, w).outcome.data)
    ensures var r := Execute(rows, req, s, w);
            var response := w.transport(r.calls - 1);
            response.Response? &&
            (response.text == "" ==> r.outcome.data == NoData) &&
            (response.text != "" && w.decode(response.text).Some? ==> r.outcome.data == Decoded(w.decode(response.text).value)) &&
            (response.text != "" && w.decode(response.text).None? ==> r.outcome.data == RawText(response.text))
    ensures var r := Execute(rows, req, s, w);
            var response := w.transport(r.calls - 1);
            var row := Row(req.endpoint, Fingerprint(req, w), w.now + s.cacheTime, response.text);
            response.Response? &&
            (response.expires.None? ==> r.rows == Sweep(rows, w.now) + [row]) &&
            (response.expires.Some? && w.parseDate(response.expires.value).Some? ==>
               r.rows == Sweep(rows, w.now) + [row.(expiration := w.parseDate(response.expires.value).value)]) &&
            (response.expires.Some? && w.parseDate(response.expires.value).None? ==> r.rows == Sweep(rows, w.now))
  {
  }

  /**
   * When every attempt fails the call returns `Success = False` with the
   * error dictionary: `last_exception` from the last attempt that raised,
   * `last_status` and `last_response` from the last attempt that returned
   * a status, each absent when there was no such attempt.
   */
  lemma FailureReportsLastAttempts(rows: seq<Row>, req: Request, s: Settings, w: World)
    requires Execute(rows, req, s, w).outcome.Reply? && !Execute(rows, req, s, w).outcome.success
    ensures var r := Execute(rows, req, s, w);
            r.rows == Sweep(rows, w.now) && r.calls == AttemptLimit(s.retries) &&
            r.outcome.data.Failed? && r.outcome.data.error == RequestFailed
    ensures var r := Execute(rows, req, s, w);
            var d := r.outcome.data;
            (d.lastException.None? <==> forall j :: 0 <= j < r.calls ==> !w.transport(j).TransportError?) &&
            (d.lastException.Some? ==>
               exists j :: 0 <= j < r.calls && w.transport(j) == TransportError(d.lastException.value)
                        && forall i :: j < i < r.calls ==> !w.transport(i).TransportError?)
    ensures var r := Execute(rows, req, s, w);
            var d := r.outcome.data;
            (d.lastStatus.None? <==> forall j :: 0 <= j < r.calls ==> !w.transport(j).Response?) &&
            (d.lastStatus.None? <==> d.lastResponse.None?) &&
            (d.lastStatus.Some? ==>
               exists j :: 0 <= j < r.calls && w.transport(j).Response? && w.transport(j).status == d.lastStatus.value
                        && w.transport(j).text == d.lastResponse.value
                        && forall i :: j < i < r.calls ==> !w.transport(i).Response?)
  {
    RememberedException(w.transport, AttemptLimit(s.retries));
    RememberedResponse(w.transport, AttemptLimit(s.retries));
  }
}
