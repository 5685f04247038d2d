/**
 * The `esicache` table as a sequence of rows in table order, with the
 * three statements that `cleanupCache`, `checkCache` and `populateCache`
 * run against it as functions on that sequence.
 */
module CacheTable {
  import opened Wrappers
  import opened JsonValues

  /** One row: (endpoint, hash, expiration, response); the response is raw text. */
  datatype Row = Row(endpoint: string, hash: string, expiration: int, response: string)

  /** The WHERE clause of the lookup: same endpoint, same hash, not yet expired. */
  predicate Live(row: Row, endpoint: string, hash: string, now: int) {
    row.endpoint == endpoint && row.hash == hash && row.expiration > now
  }

  /** `DELETE FROM esicache WHERE expiration <= now`. */
  function Sweep(rows: seq<Row>, now: int): (kept: seq<Row>)
    ensures |kept| <= |rows|
    ensures forall k :: 0 <= k < |kept| ==> kept[k].expiration > now
  {
    if rows == [] then []
    else if rows[0].expiration <= now then Sweep(rows[1..], now)
    else [rows[0]] + Sweep(rows[1..], now)
  }

  /** A row is kept exactly when it was in the table and expires after `now`. */
  lemma {:induction false} SweepKeepsExactlyTheLive(rows: seq<Row>, now: int)
    ensures forall row :: row in Sweep(rows, now) <==> row in rows && row.expiration > now
  {
    if rows != [] {
      SweepKeepsExactlyTheLive(rows[1..], now);
      assert rows == [rows[0]] + rows[1..];
    }
  }

  /** The sweep works row by row: it keeps the surviving rows in their order. */
  lemma {:induction false} SweepAppend(a: seq<Row>, b: seq<Row>, now: int)
    ensures Sweep(a + b, now) == Sweep(a, now) + Sweep(b, now)
  {
    if a == [] {
      assert a + b == b;
    } else {
      assert (a + b)[1..] == a[1..] + b;
      SweepAppend(a[1..], b, now);
    }
  }

  /** A table whose rows all expire after `now` is left exactly as it is. */
  lemma {:induction false} SweepKeepsLive(rows: seq<Row>, now: int)
    requires forall k :: 0 <= k < |rows| ==> rows[k].expiration > now
    ensures Sweep(rows, now) == rows
  {
    if rows != [] {
      SweepKeepsLive(rows[1..], now);
    }
  }

  /** Sweeping at `t1` and then at a later `t2` is sweeping at `t2`; so a sweep is idempotent. */
  lemma {:induction false} SweepLater(rows: seq<Row>, t1: int, t2: int)
    requires t1 <= t2
    ensures Sweep(Sweep(rows, t1), t2) == Sweep(rows, t2)
  {
    if rows != [] {
      SweepLater(rows[1..], t1, t2);
    }
  }

  /**
   * What the lookup loop of `checkCache` ends with: `Miss` is the source's
   * `False`, `Hit` the decoded body of the last matching row, and
   * `Undecodable` a stored body on which `json.loads` raised (the loop does
   * not catch it, so it leaves `makeRequest` too).
   */
  datatype LookupResult = Miss | Hit(data: Json) | Undecodable(body: string)

  /**
   * `SELECT response ... WHERE endpoint AND hash AND expiration > now`,
   * iterated in table order, each matching body decoded in turn.
   */
  function Lookup(rows: seq<Row>, endpoint: string, hash: string, now: int,
                  decode: string -> Option<Json>): LookupResult
    decreases |rows|
  {
    if rows == [] then Miss
    else
      var earlier := Lookup(rows[..|rows| - 1], endpoint, hash, now, decode);
      var row := rows[|rows| - 1];
      if earlier.Undecodable? || !Live(row, endpoint, hash, now) then earlier
      else
        match decode(row.response)
        case None => Undecodable(row.response)
        case Some(j) => Hit(j)
  }

  /** One more row at the end of the table is the last one the lookup sees. */
  lemma LookupAppend(rows: seq<Row>, row: Row, endpoint: string, hash: string, now: int,
                     decode: string -> Option<Json>)
    ensures Lookup(rows + [row], endpoint, hash, now, decode) ==
            if Lookup(rows, endpoint, hash, now, decode).Undecodable? || !Live(row, endpoint, hash, now)
            then Lookup(rows, endpoint, hash, now, decode)
            else match decode(row.response)
                 case None => Undecodable(row.response)
                 case Some(j) => Hit(j)
  {
    assert (rows + [row])[..|rows|] == rows;
  }

  /**
   * The lookup answers a miss exactly when no row matches, raises exactly
   * when some matching body does not decode, and otherwise returns the
   * decoded body of the LAST matching row.
   */
  lemma {:induction false} LookupCharacterised(rows: seq<Row>, endpoint: string, hash: string, now: int,
                                               decode: string -> Option<Json>)
    ensures Lookup(rows, endpoint, hash, now, decode).Miss? <==>
            forall k :: 0 <= k < |rows| ==> !Live(rows[k], endpoint, hash, now)
    ensures Lookup(rows, endpoint, hash, now, decode).Undecodable? <==>
            exists k :: 0 <= k < |rows| && Live(rows[k], endpoint, hash, now) && decode(rows[k].response).None?
    ensures Lookup(rows, endpoint, hash, now, decode).Hit? ==>
            exists k :: 0 <= k < |rows| && Live(rows[k], endpoint, hash, now)
                     && decode(rows[k].response) == Some(Lookup(rows, endpoint, hash, now, decode).data)
                     && forall m :: k < m < |rows| ==> !Live(rows[m], endpoint, hash, now)
    decreases |rows|
  {
    if rows != [] {
      var n := |rows| - 1;
      var prefix := rows[..n];
      LookupCharacterised(prefix, endpoint, hash, now, decode);
      assert rows == prefix + [rows[n]];
      assert forall k :: 0 <= k < n ==> prefix[k] == rows[k];
      var r := Lookup(rows, endpoint, hash, now, decode);
      if r.Hit? && Lookup(prefix, endpoint, hash, now, decode).Hit? && !Live(rows[n], endpoint, hash, now) {
        var k :| 0 <= k < n && Live(prefix[k], endpoint, hash, now)
                 && decode(prefix[k].response) == Some(r.data)
                 && forall m :: k < m < n ==> !Live(prefix[m], endpoint, hash, now);
        assert Live(rows[k], endpoint, hash, now);
      }
    }
  }

  /** Running the sweep first never changes what the lookup answers at the same instant. */
  lemma {:induction false} LookupAfterSweep(rows: seq<Row>, endpoint: string, hash: string, now: int,
                                            decode: string -> Option<Json>)
    ensures Lookup(Sweep(rows, now), endpoint, hash, now, decode) == Lookup(rows, endpoint, hash, now, decode)
    decreases |rows|
  {
    if rows != [] {
      var n := |rows| - 1;
      var prefix := rows[..n];
      assert rows == prefix + [rows[n]];
      LookupAfterSweep(prefix, endpoint, hash, now, decode);
      SweepAppend(prefix, [rows[n]], now);
      if rows[n].expiration > now {
        LookupAppend(Sweep(prefix, now), rows[n], endpoint, hash, now, decode);
      } else {
        assert [rows[n]][1..] == [];
        assert Sweep(rows, now) == Sweep(prefix, now);
      }
    }
  }

  /** Once a stored body has failed to decode, the rest of the table is not looked at. */
  lemma {:induction false} UndecodableSticks(rows: seq<Row>, i: nat, endpoint: string, hash: string, now: int,
                                             decode: string -> Option<Json>)
    requires i <= |rows|
    requires Lookup(rows[..i], endpoint, hash, now, decode).Undecodable?
    ensures Lookup(rows, endpoint, hash, now, decode) == Lookup(rows[..i], endpoint, hash, now, decode)
    decreases |rows| - i
  {
    if i < |rows| {
      assert rows[..i + 1][..i] == rows[..i];
      UndecodableSticks(rows, i + 1, endpoint, hash, now, decode);
    } else {
      assert rows[..i] == rows;
    }
  }

  /** The body of the last matching row, without decoding it. */
  function LastLiveBody(rows: seq<Row>, endpoint: string, hash: string, now: int): Option<string>
    decreases |rows|
  {
    if rows == [] then None
    else if Live(rows[|rows| - 1], endpoint, hash, now) then Some(rows[|rows| - 1].response)
    else LastLiveBody(rows[..|rows| - 1], endpoint, hash, now)
  }

  /** A hit is the decoded body of the last matching row; a miss means there is no such row. */
  lemma {:induction false} LookupDecodesLastLiveBody(rows: seq<Row>, endpoint: string, hash: string, now: int,
                                                     decode: string -> Option<Json>)
    ensures Lookup(rows, endpoint, hash, now, decode).Miss? <==> LastLiveBody(rows, endpoint, hash, now).None?
    ensures Lookup(rows, endpoint, hash, now, decode).Hit? ==>
            LastLiveBody(rows, endpoint, hash, now).Some? &&
            decode(LastLiveBody(rows, endpoint, hash, now).value) == Some(Lookup(rows, endpoint, hash, now, decode).data)
    decreases |rows|
  {
    if rows != [] {
      LookupDecodesLastLiveBody(rows[..|rows| - 1], endpoint, hash, now, decode);
    }
  }
}
