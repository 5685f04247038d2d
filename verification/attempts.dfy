/**
 * The network side of `makeRequest`: what one attempt can produce, which
 * statuses are accepted, where the retry loop stops, what it remembers of
 * the attempts that were not accepted, and which expiry an accepted
 * response is cached under.
 */
module Attempts {
  import opened Wrappers

  /**
   * One attempt: the call raised before a response existed (connection
   * error, timeout, or a method name `requests` has no function for), or an
   * HTTP response with its status, its `Expires` header if any, and its text.
   */
  datatype Attempt =
    | TransportError(message: string)
    | Response(status: int, expires: Option<string>, text: string)

  /** `Base.defaultSuccessCodes`. */
  const DefaultSuccessCodes: seq<int> := [200, 204]

  /** `request.status_code in (self.defaultSuccessCodes + successCodes)`. */
  predicate Accepted(attempt: Attempt, successCodes: seq<int>) {
    attempt.Response? && attempt.status in DefaultSuccessCodes + successCodes
  }

  /** The number of iterations of `range(retries + 1)`. */
  function AttemptLimit(retries: int): nat {
    if retries < 0 then 0 else retries + 1
  }

  /** The first accepted attempt among attempts `from` up to (not including) `limit`. */
  function FirstAccepted(transport: nat -> Attempt, successCodes: seq<int>, from: nat, limit: nat): (k: Option<nat>)
    ensures k.Some? ==> from <= k.value < limit && Accepted(transport(k.value), successCodes)
    ensures k.Some? ==> forall j :: from <= j < k.value ==> !Accepted(transport(j), successCodes)
    ensures k.None? ==> forall j :: from <= j < limit ==> !Accepted(transport(j), successCodes)
    decreases limit - from
  {
    if from >= limit then None
    else if Accepted(transport(from), successCodes) then Some(from)
    else FirstAccepted(transport, successCodes, from + 1, limit)
  }

  /** The loop's `last_exception`, `last_status` and `last_response_text`; `None` when never assigned. */
  datatype Memory = Memory(lastException: Option<string>, lastStatus: Option<int>, lastResponse: Option<string>)

  /** What one unaccepted attempt overwrites. */
  function Remember(memory: Memory, attempt: Attempt): Memory {
    match attempt
    case TransportError(message) => memory.(lastException := Some(message))
    case Response(status, _, text) => memory.(lastStatus := Some(status), lastResponse := Some(text))
  }

  /** The memory after the first `count` attempts. */
  function Remembered(transport: nat -> Attempt, count: nat): Memory {
    if count == 0 then Memory(None, None, None)
    else Remember(Remembered(transport, count - 1), transport(count - 1))
  }

  /**
   * `last_exception` is absent exactly when no attempt raised, and otherwise
   * is the message of the LAST attempt that raised.
   */
  lemma {:induction false} RememberedException(transport: nat -> Attempt, count: nat)
    ensures Remembered(transport, count).lastException.None? <==>
            forall j :: 0 <= j < count ==> !transport(j).TransportError?
    ensures Remembered(transport, count).lastException.Some? ==>
            exists j :: 0 <= j < count && transport(j) == TransportError(Remembered(transport, count).lastException.value)
                     && forall i :: j < i < count ==> !transport(i).TransportError?
  {
    if count > 0 {
      RememberedException(transport, count - 1);
      if !transport(count - 1).TransportError? && Remembered(transport, count).lastException.Some? {
        var j :| 0 <= j < count - 1
                 && transport(j) == TransportError(Remembered(transport, count - 1).lastException.value)
                 && forall i :: j < i < count - 1 ==> !transport(i).TransportError?;
        assert forall i :: j < i < count ==> !transport(i).TransportError?;
      }
    }
  }

  /**
   * `last_status` and `last_response_text` are absent exactly when no
   * attempt produced a response, and otherwise both come from the LAST
   * attempt that did.
   */
  lemma {:induction false} RememberedResponse(transport: nat -> Attempt, count: nat)
    ensures Remembered(transport, count).lastStatus.None? <==> forall j :: 0 <= j < count ==> !transport(j).Response?
    ensures Remembered(transport, count).lastStatus.None? <==> Remembered(transport, count).lastResponse.None?
    ensures Remembered(transport, count).lastStatus.Some? ==>
            exists j :: 0 <= j < count && transport(j).Response?
                     && transport(j).status == Remembered(transport, count).lastStatus.value
                     && transport(j).text == Remembered(transport, count).lastResponse.value
                     && forall i :: j < i < count ==> !transport(i).Response?
  {
    if count > 0 {
      RememberedResponse(transport, count - 1);
      var m := Remembered(transport, count);
      if !transport(count - 1).Response? && m.lastStatus.Some? {
        var j :| 0 <= j < count - 1 && transport(j).Response?
                 && transport(j).status == m.lastStatus.value
                 && transport(j).text == m.lastResponse.value
                 && forall i :: j < i < count - 1 ==> !transport(i).Response?;
        assert forall i :: j < i < count ==> !transport(i).Response?;
      }
    }
  }

  /**
   * A transport error survives the attempts after it that returned a
   * status: only a later transport error replaces it.
   */
  lemma {:induction false} TransportErrorSurvives(transport: nat -> Attempt, j: nat, count: nat)
    requires j < count && transport(j).TransportError?
    requires forall i :: j < i < count ==> transport(i).Response?
    ensures Remembered(transport, count).lastException == Some(transport(j).message)
  {
    if count > j + 1 {
      TransportErrorSurvives(transport, j, count - 1);
    }
  }

  /**
   * The expiry an accepted response with a body is cached under: the parsed
   * `Expires` header when there is one, else `now + cacheTime`. `None`
   * means the header did not parse; the exception that raises skips the
   * cache write.
   */
  function CacheExpiry(expires: Option<string>, parseDate: string -> Option<int>, now: int, cacheTime: int): Option<int> {
    match expires
    case None => Some(now + cacheTime)
    case Some(header) => parseDate(header)
  }
}
