/**
 * The class `Base`: the cache table it reaches through its database
 * connection, the three cache statements, and `makeRequest` with its
 * retry loop, each proved against the functions of `CacheTable`,
 * `Attempts` and `Requests`.
 */
module EsiBase {
  import opened Wrappers
  import opened JsonValues
  import opened RequestHash
  import opened CacheTable
  import opened Attempts
  import opened Requests

  class Base {
    /** The `esicache` table, in the order a SELECT iterates it. */
    var rows: seq<Row>

    constructor (rows: seq<Row>)
      ensures this.rows == rows
    {
      this.rows := rows;
    }

    /** `cleanupCache`: every row that has expired by `now` is deleted, the rest stay in order. */
    method CleanupCache(now: int)
      modifies this
      ensures rows == Sweep(old(rows), now)
      ensures forall k :: 0 <= k < |rows| ==> rows[k].expiration > now
    {
      rows := Sweep(rows, now);
    }

    /**
     * `checkCache`: walks the matching rows in order and keeps the decoded
     * body of the last one. The table is only read. A stored body that
     * `json.loads` rejects (an empty text among them) ends the walk with
     * `Undecodable`, the exception the source lets escape.
     */
    method CheckCache(endpoint: string, hash: string, now: int, decode: string -> Option<Json>)
      returns (result: LookupResult)
      ensures result == Lookup(rows, endpoint, hash, now, decode)
    {
      result := Miss;
      var i := 0;
      while i < |rows|
        invariant 0 <= i <= |rows|
        invariant result == Lookup(rows[..i], endpoint, hash, now, decode)
        invariant !result.Undecodable?
      {
        assert rows[..i + 1] == rows[..i] + [rows[i]];
        LookupAppend(rows[..i], rows[i], endpoint, hash, now, decode);
        var row := rows[i];
        if Live(row, endpoint, hash, now) {
          match decode(row.response)
          case None =>
            UndecodableSticks(rows, i + 1, endpoint, hash, now, decode);
            return Undecodable(row.response);
          case Some(j) =>
            result := Hit(j);
        }
        i := i + 1;
      }
      assert rows[..i] == rows;
    }

    /** `populateCache`: appends one row; nothing is replaced and duplicates are not checked. */
    method PopulateCache(endpoint: string, hash: string, response: string, expires: int)
      modifies this
      ensures rows == old(rows) + [Row(endpoint, hash, expires, response)]
    {
      rows := rows + [Row(endpoint, hash, expires, response)];
    }

    /**
     * `makeRequest`: sweep, look up, and on a miss make up to `retries + 1`
     * attempts, stopping at the first accepted one. Returns the outcome and
     * the number of attempts made.
     */
    method MakeRequest(req: Request, s: Settings, w: World) returns (outcome: Outcome, calls: nat)
      modifies this
      ensures rows == Execute(old(rows), req, s, w).rows
      ensures outcome == Execute(old(rows), req, s, w).outcome
      ensures calls == Execute(old(rows), req, s, w).calls
    {
      CleanupCache(w.now);
      var requestHash := HashRequest(w.digest, req.url, req.verb, req.payload, req.accessToken);
      var cacheCheck := CheckCache(req.endpoint, requestHash, w.now, w.decode);
      if cacheCheck.Undecodable? {
        return CacheDecodeRaised(cacheCheck.body), 0;
      }
      // `cacheCheck != False`: a cached `false` or `0` reads as a miss.
      if cacheCheck.Hit? && !EqualsFalse(cacheCheck.data) {
        return Reply(true, Decoded(cacheCheck.data)), 0;
      }
      ghost var swept := rows;
      assert Execute(old(rows), req, s, w) == Fetch(swept, req.endpoint, requestHash, s, w);
      var limit := AttemptLimit(s.retries);
      var lastException: Option<string> := None;
      var lastStatus: Option<int> := None;
      var lastResponseText: Option<string> := None;
      var retryCounter: nat := 0;
      while retryCounter < limit
        invariant retryCounter <= limit
        invariant rows == swept
        invariant forall j :: 0 <= j < retryCounter ==> !Accepted(w.transport(j), s.successCodes)
        invariant Memory(lastException, lastStatus, lastResponseText) == Remembered(w.transport, retryCounter)
      {
        var request := w.transport(retryCounter);
        match request {
          case TransportError(message) =>
            lastException := Some(message);
          case Response(status, expires, text) =>
            if status in DefaultSuccessCodes + s.successCodes {
              FetchStopsAt(swept, req.endpoint, requestHash, s, w, retryCounter);
              if !s.expectResponse {
                PopulateCache(req.endpoint, requestHash, text, w.now + s.cacheTime);
                return Reply(true, NoData), retryCounter + 1;
              }
              var data := BodyData(text, w.decode);
              var expiry := CacheExpiry(expires, w.parseDate, w.now, s.cacheTime);
              if expiry.Some? {
                PopulateCache(req.endpoint, requestHash, text, expiry.value);
              }
              return Reply(true, data), retryCounter + 1;
            }
            lastStatus := Some(status);
            lastResponseText := Some(text);
        }
        retryCounter := retryCounter + 1;
      }
      outcome := Reply(false, Failed(RequestFailed, lastException, lastStatus, lastResponseText));
      calls := limit;
    }
  }
}
