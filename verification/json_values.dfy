/**
 * Decoded JSON documents, as `json.loads` produces them and as a request
 * payload is handed in. Numbers are integers in this model.
 */
module JsonValues {
  import opened Wrappers

  datatype Json =
    | JNull
    | JBool(b: bool)
    | JNumber(n: int)
    | JString(s: string)
    | JArray(items: seq<Json>)
    | JObject(members: seq<(string, Json)>)

  /**
   * Python's `x != False` is false for `False` and for the number 0 (and
   * 0.0, not modelled): the decoded documents `false` and `0` compare equal
   * to the sentinel that `checkCache` uses for "no row".
   */
  predicate EqualsFalse(j: Json) {
    j == JBool(false) || j == JNumber(0)
  }

  /** The value stored under `key` in a JSON object's members, first one first. */
  function Member(members: seq<(string, Json)>, key: string): Option<Json> {
    if members == [] then None
    else if members[0].0 == key then Some(members[0].1)
    else Member(members[1..], key)
  }

  /** In an object whose keys are distinct, a key is found at its own index. */
  lemma {:induction false} MemberAt(members: seq<(string, Json)>, i: nat)
    requires i < |members|
    requires forall j, k :: 0 <= j < k < |members| ==> members[j].0 != members[k].0
    ensures Member(members, members[i].0) == Some(members[i].1)
  {
    if i > 0 {
      MemberAt(members[1..], i - 1);
    }
  }
}
