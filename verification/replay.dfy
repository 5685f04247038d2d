/**
 * Two calls in a row: what a second identical request sees of the row the
 * first one wrote. The code as written replays only bodies that decode to
 * something other than `false` or `0`. `ExecuteFixed` is the lookup that
 * the comments at ESI_Base.py:119 and :139 describe (the body is cached so
 * the request is not repeated, and `checkCache` decodes it back); it
 * replays what the first call returned.
 */
module Replay {
  import opened Wrappers
  import opened JsonValues
  import opened CacheTable
  import opened Attempts
  import opened Requests

  /** A lookup that did not raise at `t1` does not raise at a later `t2` after a sweep: fewer rows match. */
  lemma DecodableLater(rows: seq<Row>, endpoint: string, hash: string, t1: int, t2: int,
                       decode: string -> Option<Json>)
    requires t1 <= t2 && !Lookup(rows, endpoint, hash, t1, decode).Undecodable?
    ensures !Lookup(Sweep(rows, t2), endpoint, hash, t2, decode).Undecodable?
  {
    LookupAfterSweep(rows, endpoint, hash, t2, decode);
    LookupCharacterised(rows, endpoint, hash, t1, decode);
    LookupCharacterised(rows, endpoint, hash, t2, decode);
  }

  /** The table after a call that wrote: the swept table and the new row at its end, still there at `t2`. */
  lemma WrittenRowSurvives(swept: seq<Row>, row: Row, t2: int)
    requires row.expiration > t2
    ensures Sweep(swept + [row], t2) == Sweep(swept, t2) + [row]
  {
    SweepAppend(swept, [row], t2);
    assert [row][1..] == [];
  }

  /**
   * A second identical request before the written row expires is a cache
   * hit: it returns the document the row decodes to, makes no attempt and
   * writes nothing, provided that document is not `false` or `0`.
   */
  lemma ReplayWithinTtl(rows: seq<Row>, req: Request, s: Settings, w: World, s2: Settings, w2: World, j: Json)
    requires Execute(rows, req, s, w).calls > 0
    requires |Execute(rows, req, s, w).rows| == |Sweep(rows, w.now)| + 1
    requires w.now <= w2.now < Execute(rows, req, s, w).rows[|Sweep(rows, w.now)|].expiration
    requires w2.decode == w.decode && w2.digest == w.digest
    requires w.decode(Execute(rows, req, s, w).rows[|Sweep(rows, w.now)|].response) == Some(j) && !EqualsFalse(j)
    ensures var first := Execute(rows, req, s, w);
            Execute(first.rows, req, s2, w2) == Run(Sweep(first.rows, w2.now), Reply(true, Decoded(j)), 0)
  {
    var first := Execute(rows, req, s, w);
    var swept := Sweep(rows, w.now);
    var h := Fingerprint(req, w);
    AtMostOneWrite(rows, req, s, w);
    var row := first.rows[|swept|];
    assert first.rows == swept + [row];
    assert !Lookup(swept, req.endpoint, h, w.now, w.decode).Undecodable?;
    assert Fingerprint(req, w2) == h;
    WrittenRowSurvives(swept, row, w2.now);
    SweepLater(rows, w.now, w2.now);
    DecodableLater(swept, req.endpoint, h, w.now, w2.now, w.decode);
    LookupAppend(Sweep(swept, w2.now), row, req.endpoint, h, w2.now, w.decode);
  }

  /**
   * As written, an accepted body that does not decode (an empty 204 body,
   * an HTML page) is cached as raw text, and the next identical request
   * raises out of `checkCache` instead of replaying it, at any instant
   * `w2.now` before the 60 s `cacheTime` runs out.
   */
  lemma UndecodableBodyReplayRaises(req: Request, w: World, w2: World, status: int, text: string)
    requires status in DefaultSuccessCodes
    requires w.transport(0) == Response(status, None, text)
    requires w.decode(text) == None
    requires w.now <= w2.now < w.now + 60
    requires w2.decode == w.decode && w2.digest == w.digest
    ensures var s := Settings(true, [], 60, 0);
            var first := Execute([], req, s, w);
            first.outcome == Reply(true, BodyData(text, w.decode)) && first.calls == 1 &&
            Execute(first.rows, req, s, w2) == Run(first.rows, CacheDecodeRaised(text), 0)
  {
    var s := Settings(true, [], 60, 0);
    var h := Fingerprint(req, w);
    var row := Row(req.endpoint, h, w.now + 60, text);
    assert FirstAccepted(w.transport, [], 0, 1) == Some(0);
    assert Execute([], req, s, w).rows == [row];
    assert Fingerprint(req, w2) == h;
    SweepKeepsLive([row], w2.now);
    LookupAppend([], row, req.endpoint, h, w2.now, w.decode);
  }

  /**
   * As written, a live cached body that decodes to `false` compares equal
   * to the miss sentinel: the request goes to the network as if the table
   * were empty.
   */
  lemma CachedFalseIsRefetched(req: Request, s: Settings, w: World)
    requires s.retries >= 0
    requires w.decode("false") == Some(JBool(false))
    ensures var rows := [Row(req.endpoint, Fingerprint(req, w), w.now + 1, "false")];
            Execute(rows, req, s, w) == Fetch(rows, req.endpoint, Fingerprint(req, w), s, w) &&
            Execute(rows, req, s, w).calls > 0
  {
    var rows := [Row(req.endpoint, Fingerprint(req, w), w.now + 1, "false")];
    SweepKeepsLive(rows, w.now);
    LookupAppend([], rows[0], req.endpoint, Fingerprint(req, w), w.now, w.decode);
    assert [] + [rows[0]] == rows;
  }

  /**
   * The corrected `makeRequest`: the lookup yields the raw body of the last
   * live row or nothing (no sentinel that a cached document can equal),
   * and a replayed body is shaped exactly as a fresh one is.
   */
  function ExecuteFixed(rows: seq<Row>, req: Request, s: Settings, w: World): Run {
    var swept := Sweep(rows, w.now);
    var requestHash := Fingerprint(req, w);
    match LastLiveBody(swept, req.endpoint, requestHash, w.now)
    case Some(body) => Run(swept, Reply(true, if s.expectResponse then BodyData(body, w.decode) else NoData), 0)
    case None => Fetch(swept, req.endpoint, requestHash, s, w)
  }

  /**
   * With the corrected lookup, repeating a request before the row it wrote
   * expires returns exactly what the first call returned, whatever the
   * body was, with no attempt and no write.
   */
  lemma FixedReplayIsIdempotent(rows: seq<Row>, req: Request, s: Settings, w: World, w2: World)
    requires ExecuteFixed(rows, req, s, w).calls > 0
    requires |ExecuteFixed(rows, req, s, w).rows| == |Sweep(rows, w.now)| + 1
    requires w.now <= w2.now < ExecuteFixed(rows, req, s, w).rows[|Sweep(rows, w.now)|].expiration
    requires w2.decode == w.decode && w2.digest == w.digest
    ensures var first := ExecuteFixed(rows, req, s, w);
            ExecuteFixed(first.rows, req, s, w2) == Run(Sweep(first.rows, w2.now), first.outcome, 0)
  {
    var first := ExecuteFixed(rows, req, s, w);
    var swept := Sweep(rows, w.now);
    var h := Fingerprint(req, w);
    var limit := AttemptLimit(s.retries);
    assert first == Fetch(swept, req.endpoint, h, s, w);
    var k := FirstAccepted(w.transport, s.successCodes, 0, limit).value;
    var row := first.rows[|swept|];
    assert first.rows == swept + [row];
    assert row.response == w.transport(k).text;
    assert Fingerprint(req, w2) == h;
    WrittenRowSurvives(swept, row, w2.now);
    SweepLater(rows, w.now, w2.now);
    assert (Sweep(swept, w2.now) + [row])[..|Sweep(swept, w2.now)|] == Sweep(swept, w2.now);
  }

  /**
   * A server that always answers 500, with two retries: three attempts, a
   * failed call, and the last status and text in the error dictionary.
   */
  lemma ServerErrorExhaustsRetries(rows: seq<Row>, req: Request, w: World, text: string)
    requires forall i: nat :: w.transport(i) == Response(500, None, text)
    requires CacheAnswer(rows, req, w).Miss?
    ensures Execute(rows, req, Settings(true, [], 0, 2), w) ==
            Run(Sweep(rows, w.now), Reply(false, Failed(RequestFailed, None, Some(500), Some(text))), 3)
  {
    var s := Settings(true, [], 0, 2);
    assert !Accepted(w.transport(0), s.successCodes);
    assert !Accepted(w.transport(1), s.successCodes);
    assert !Accepted(w.transport(2), s.successCodes);
    assert Remembered(w.transport, 3) == Memory(None, Some(500), Some(text));
  }
}
