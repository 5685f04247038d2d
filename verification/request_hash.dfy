/**
 * The request fingerprint of `Base.hashRequest`: a dictionary with the keys
 * URL, Method, Payload and Authentication, in that order, serialised
 * compactly and hashed. The serialisation and SHA-256 are one given
 * function `digest` from the dictionary to its hex digest.
 */
module RequestHash {
  import opened Wrappers
  import opened JsonValues

  const HashingKeys: seq<string> := ["URL", "Method", "Payload", "Authentication"]

  /** `None` serialises as JSON null. */
  function Nullable(text: Option<string>): Json {
    match text
    case None => JNull
    case Some(t) => JString(t)
  }

  /** The dictionary that is serialised; the payload `None` is `JNull`. */
  function HashingDict(url: string, verb: string, payload: Json, accessToken: Option<string>): (d: Json)
    ensures d.JObject? && |d.members| == |HashingKeys|
    ensures forall i :: 0 <= i < |HashingKeys| ==> d.members[i].0 == HashingKeys[i]
    ensures Member(d.members, "URL") == Some(JString(url))
    ensures Member(d.members, "Method") == Some(JString(verb))
    ensures Member(d.members, "Payload") == Some(payload)
    ensures Member(d.members, "Authentication") == Some(Nullable(accessToken))
  {
    var members := [
      ("URL", JString(url)),
      ("Method", JString(verb)),
      ("Payload", payload),
      ("Authentication", Nullable(accessToken))
    ];
    MemberAt(members, 0); MemberAt(members, 1); MemberAt(members, 2); MemberAt(members, 3);
    JObject(members)
  }

  /** `hashRequest`: the digest of the serialised dictionary. */
  function HashRequest(digest: Json -> string, url: string, verb: string, payload: Json,
                       accessToken: Option<string>): string
  {
    digest(HashingDict(url, verb, payload, accessToken))
  }

  /**
   * Two calls give the same fingerprint exactly when their four arguments
   * agree, provided the digest does not collide on the two dictionaries.
   * In particular a different access token is a different fingerprint.
   */
  lemma FingerprintSeparatesRequests(digest: Json -> string,
                                     url: string, verb: string, payload: Json, accessToken: Option<string>,
                                     url': string, verb': string, payload': Json, accessToken': Option<string>)
    requires digest(HashingDict(url, verb, payload, accessToken)) == digest(HashingDict(url', verb', payload', accessToken'))
             ==> HashingDict(url, verb, payload, accessToken) == HashingDict(url', verb', payload', accessToken')
    ensures HashRequest(digest, url, verb, payload, accessToken) == HashRequest(digest, url', verb', payload', accessToken')
            <==> url == url' && verb == verb' && payload == payload' && accessToken == accessToken'
  {
    var d := HashingDict(url, verb, payload, accessToken);
    var d' := HashingDict(url', verb', payload', accessToken');
    if d == d' {
      assert Member(d.members, "Authentication") == Member(d'.members, "Authentication");
      assert Nullable(accessToken) == Nullable(accessToken');
    }
  }

  /**
   * The headers sent with every attempt: `accept` always, and an
   * `Authorization: Bearer` header exactly when an access token is given.
   */
  function RequestHeaders(accessToken: Option<string>): (headers: seq<(string, string)>)
    ensures |headers| >= 1 && headers[0] == ("accept", "application/json")
    ensures (exists i :: 0 <= i < |headers| && headers[i].0 == "Authorization") <==> accessToken.Some?
    ensures forall i :: 0 <= i < |headers| && headers[i].0 == "Authorization" ==>
              accessToken.Some? && headers[i].1 == "Bearer " + accessToken.value
  {
    match accessToken
    case None => [("accept", "application/json")]
    case Some(token) =>
      var headers := [("accept", "application/json"), ("Authorization", "Bearer " + token)];
      assert headers[1].0 == "Authorization";
      headers
  }
}
