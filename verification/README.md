# ESI request layer: a Dafny model

This project models `Base` of `scripts/Python/ESI/ESI_Base.py`, the caching, retrying request layer the ESI wrappers call. One call of `makeRequest`:

1. sweeps the `esicache` table of every row whose expiration is at or before now;
2. fingerprints the request (URL, method, payload and access token) with `hashRequest`;
3. looks the fingerprint up with `checkCache` and returns the cached document on a hit;
4. otherwise makes up to `retries + 1` attempts, stopping at the first one whose status is in `[200, 204] + successCodes`;
5. on that accepted attempt, shapes `Data` and writes one cache row with the raw text;
6. when no attempt is accepted, returns `Success = False` with an error dictionary that holds the last exception, status and response text.

Layout:

- `wrappers.dfy` holds `Option`.
- `json_values.dfy` holds decoded JSON values and Python's `== False` test on them.
- `request_hash.dfy` holds the hashing dictionary, the fingerprint and the request headers.
- `cache_table.dfy` holds the table as a sequence of rows. The sweep and the lookup are functions on it, with their lemmas.
- `attempts.dfy` holds one attempt's outcome, the accepted statuses, the first accepted attempt, what the loop remembers, and the cache expiry.
- `requests.dfy` holds `Execute`, one `makeRequest` call as a function of the table before the call, with the lemmas about it.
- `esi_base.dfy` holds the class `Base`. Its methods update the row sequence in place, and `MakeRequest` runs the retry loop; each method is proved against the functions above.
- `replay.dfy` covers two calls in a row, the two findings below, and the corrected lookup.

Four behaviours of the code that a reader may not expect, which the model keeps:

- An `Expires` header that does not parse skips the cache write. It does not fall back to `cacheTime`.
- A stored body that `json.loads` rejects raises out of `makeRequest`. The lookup does not fail open.
- When several live rows match, the last one in table order wins.
- With `expectResponse` false, the raw response text is cached, not a placeholder.

Line 68 (`def makeRequest`) is indented one space, which matches no enclosing indentation level, so the file as written is an IndentationError. The model treats `makeRequest` as the method of `Base` it is meant to be.

## Model

| member | source | states |
|---|---|---|
| `RequestHash.HashingDict` | scripts/Python/ESI/ESI_Base.py:13-18 | the hashed dictionary has exactly the keys URL, Method, Payload, Authentication in that order, and each key reads back its own argument (a missing token is null) |
| `RequestHash.FingerprintSeparatesRequests` | scripts/Python/ESI/ESI_Base.py:11-24 | the fingerprint depends on the four arguments and on nothing else: equal arguments give equal fingerprints, and if the digest does not collide on the two dictionaries, differing arguments (a different access token among them) give different fingerprints |
| `RequestHash.RequestHeaders` | scripts/Python/ESI/ESI_Base.py:97-100 | `accept: application/json` is always sent; an `Authorization` header is present exactly when a token is given, and its value is `Bearer ` followed by the token |
| `CacheTable.Sweep` | scripts/Python/ESI/ESI_Base.py:30-33 | no row that expires at or before now survives the delete, and the table does not grow |
| `CacheTable.SweepKeepsExactlyTheLive` | scripts/Python/ESI/ESI_Base.py:30-33 | a row is kept exactly when it was in the table and expires after now |
| `CacheTable.SweepAppend` | scripts/Python/ESI/ESI_Base.py:30-33 | the delete works row by row, so the kept rows stay in their original order |
| `CacheTable.SweepKeepsLive` | scripts/Python/ESI/ESI_Base.py:30-33 | a table whose rows all expire after now is left unchanged |
| `CacheTable.SweepLater` | scripts/Python/ESI/ESI_Base.py:26-36 | sweeping at one time and then at a later one equals sweeping at the later one, so a repeated sweep changes nothing |
| `CacheTable.LookupCharacterised` | scripts/Python/ESI/ESI_Base.py:42-55 | the lookup misses exactly when no row has equal endpoint, equal hash and expiration after now; it raises exactly when some such row's body does not decode; otherwise it returns the decoded body of the last such row |
| `CacheTable.LookupAppend` | scripts/Python/ESI/ESI_Base.py:47-51 | a row added at the end of the table becomes the answer when it matches and is live, unless an earlier match already raised |
| `CacheTable.UndecodableSticks` | scripts/Python/ESI/ESI_Base.py:49-51 | once a stored body has failed to decode, the rows after it do not change the outcome |
| `CacheTable.LookupAfterSweep` | scripts/Python/ESI/ESI_Base.py:82-87 | sweeping before the lookup at the same instant never changes what the lookup answers |
| `CacheTable.LookupDecodesLastLiveBody` | scripts/Python/ESI/ESI_Base.py:47-55 | a miss means there is no live matching row; a hit is the decoding of the last live matching row's raw body |
| `Attempts.FirstAccepted` | scripts/Python/ESI/ESI_Base.py:94-114 | the attempt the loop stops at is accepted, lies within the attempt bound, and every earlier attempt was not accepted; when there is none, no attempt within the bound was accepted |
| `Attempts.RememberedException` | scripts/Python/ESI/ESI_Base.py:108-111 | `last_exception` is unset exactly when no attempt raised, and otherwise holds the message of the last attempt that raised |
| `Attempts.RememberedResponse` | scripts/Python/ESI/ESI_Base.py:154-159 | `last_status` and `last_response_text` are both unset exactly when no attempt returned a response, and otherwise both come from the last attempt that did |
| `Attempts.TransportErrorSurvives` | scripts/Python/ESI/ESI_Base.py:108-111 | a transport error from an earlier attempt is still the reported exception after later attempts that returned statuses |
| `Requests.FetchStopsAt` | scripts/Python/ESI/ESI_Base.py:114-152 | when attempt k is the first accepted one, the call makes k+1 attempts, succeeds with the shaped data, and writes the raw text if an expiry was found |
| `Requests.CacheHitMakesNoAttempts` | scripts/Python/ESI/ESI_Base.py:80-91 | on a live cached document other than `false` or `0`, the call returns `Success = True` with that document, makes no attempt, and changes the table only by the sweep |
| `Requests.AttemptsAndWritesBounded` | scripts/Python/ESI/ESI_Base.py:82-94 | at most `retries + 1` attempts are made (none for a negative `retries + 1`); the swept table is a prefix of the final one, which has at most one more row |
| `Requests.FirstAcceptedEndsTheLoop` | scripts/Python/ESI/ESI_Base.py:94-159 | a call that made attempts succeeded exactly when its last attempt was accepted; every earlier attempt was not accepted; a failed call used all its attempts |
| `Requests.AtMostOneWrite` | scripts/Python/ESI/ESI_Base.py:118-152 | the only write is on the accepted path: one row for this endpoint and fingerprint holding the accepted attempt's raw text |
| `Requests.AcceptedWithoutBody` | scripts/Python/ESI/ESI_Base.py:118-125 | with `expectResponse` false, `Data` is None and the row is written with expiry `now + cacheTime`; the `Expires` header is ignored |
| `Requests.AcceptedWithBody` | scripts/Python/ESI/ESI_Base.py:127-152 | with `expectResponse` true, `Data` is None for empty text, the decoded document when the text decodes, and the raw text otherwise; the raw text is cached until the parsed `Expires` header or `now + cacheTime` when there is none; a header that does not parse skips the write but the call still succeeds |
| `Requests.FailureReportsLastAttempts` | scripts/Python/ESI/ESI_Base.py:161-169 | when no attempt is accepted, the result is `Success = False` with `error: "Request failed"`; the table keeps only the sweep; `last_exception` comes from the last attempt that raised and `last_status`/`last_response` from the last attempt that returned a response, each None if there was none |
| `EsiBase.Base.CleanupCache` | scripts/Python/ESI/ESI_Base.py:26-36 | the table becomes its sweep: no row expiring at or before now remains |
| `EsiBase.Base.CheckCache` | scripts/Python/ESI/ESI_Base.py:38-55 | the cursor loop that overwrites `result` with each match ends with the lookup's answer; the table is not modified |
| `EsiBase.Base.PopulateCache` | scripts/Python/ESI/ESI_Base.py:57-66 | exactly one row (endpoint, hash, expires, response) is appended; existing rows are untouched and duplicates are not checked |
| `EsiBase.Base.MakeRequest` | scripts/Python/ESI/ESI_Base.py:68-169 | the new table, the returned result and the number of attempts are those of `Execute`, about which the `Requests` lemmas state the properties |
| `Replay.ReplayWithinTtl` | scripts/Python/ESI/ESI_Base.py:80-91 | a second identical request, made before the row the first call wrote expires, returns that row's document with no attempt and no write, provided the document decodes to something other than `false` or `0` |
| `Replay.UndecodableBodyReplayRaises` | scripts/Python/ESI/ESI_Base.py:47-51 | an accepted body that does not decode is returned once and cached for 60 s, and an identical request at any later instant within those 60 s raises in the lookup |
| `Replay.CachedFalseIsRefetched` | scripts/Python/ESI/ESI_Base.py:88 | a live cached body that decodes to `false` reads as a miss, and the request goes to the network |
| `Replay.FixedReplayIsIdempotent` | scripts/Python/ESI/ESI_Base.py:127-152 | with the corrected lookup, a second identical request within the row's lifetime returns exactly what the first call returned, whatever the body, with no attempt and no write |
| `Replay.ServerErrorExhaustsRetries` | scripts/Python/ESI/ESI_Base.py:94-169 | a server that always answers 500, with `retries = 2`, gets three attempts, and the failed result carries status 500, the response text and no exception |

## Left out

- The SHA-256 digest and `json.dumps` are one given function `digest`, so collision resistance is an assumption of `FingerprintSeparatesRequests`, not a theorem.
- MySQL cursors, `execute`, `commit` and durability are not modelled. The table is a sequence of rows, and SELECT iterates it in insertion order, which SQL without ORDER BY does not promise.
- Exceptions from the database driver are not modelled. An in-memory insert cannot fail, so the `except` at lines 123-124 is never reached, and the one at lines 149-150 only through an `Expires` header that does not parse.
- The HTTP call itself is not modelled: `requests`, the dispatch `getattr(requests, method.lower())`, the 30-second timeout and the choice between sending `json=payload` and sending no body. The k-th attempt's outcome is given as either a transport error or a response with its status, `Expires` header and text. An unknown method name is a transport error on every attempt.
- `RequestHeaders` states which headers are built, but the attempts are not tied to them.
- The clock is read once per call (`now`). The source reads `time.time()` separately in the sweep, the lookup and the expiry computation.
- HTTP-date parsing (`email.utils.parsedate_to_datetime`, IMF-fixdate of section 7.1.1.1 of RFC 7231) and `json.loads` are given partial functions. Their internals are not modelled.
- JSON numbers are integers, so a cached `0.0`, which Python also treats as equal to `False`, is not modelled.
- `str(last_exception)` is modelled as the exception's message string.
- Concurrent callers sharing the table are not modelled.

## Findings

| source | as written | input that shows it | evidently intended | confidence | as-written member | corrected member |
|---|---|---|---|---|---|---|
| scripts/Python/ESI/ESI_Base.py:51 | `checkCache` decodes every stored body with `json.loads`, unguarded, while `makeRequest` caches the raw text even when it is empty or not JSON (line 148) | `expectResponse = True`, `cacheTime = 60`, a 204 response with an empty body: the first call returns `Success = True, Data = None`; an identical call within 60 s raises `JSONDecodeError` | a replayed body is shaped as a fresh one is (empty gives None, non-JSON gives the raw text), so the second call returns what the first returned | high; not executed | `Replay.UndecodableBodyReplayRaises` | `Replay.FixedReplayIsIdempotent` |
| scripts/Python/ESI/ESI_Base.py:47 | the miss sentinel is `False` and the caller tests `cacheCheck != False` (line 88), so a cached document `false` or `0` compares equal to it | a live row whose body is `false`: the request goes to the network again and appends another row on each call | a miss that no cached document can equal, as an optional result | medium; not executed | `Replay.CachedFalseIsRefetched` | `Replay.FixedReplayIsIdempotent` |

`Replay.ExecuteFixed` is the corrected call. Its lookup returns the raw body of the last live row, or nothing, and it shapes that body the way a fresh response is shaped. `EsiBase.Base.MakeRequest` and `Requests.Execute` keep the behaviour as written.
