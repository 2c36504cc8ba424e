/**
 * The decoded body of an insights response, as `resp.json()` hands it to the
 * parser. JSON numbers are modelled as integers (the counts the endpoint
 * returns). An object lists its entries in the decoded dictionary's
 * iteration order; a decoded dictionary has no repeated key.
 */
module Json {
  import opened Wrappers

  datatype Json =
    | JNull
    | JBool(b: bool)
    | JInt(n: int)
    | JString(s: string)
    | JArray(elems: seq<Json>)
    | JObject(entries: seq<(string, Json)>)

  /** The value stored under `key` in an object's entries, if any (the first entry with that key). */
  function Lookup(entries: seq<(string, Json)>, key: string): (r: Option<Json>)
    ensures r.None? <==> forall i :: 0 <= i < |entries| ==> entries[i].0 != key
    ensures r.Some? ==> exists i :: 0 <= i < |entries| && entries[i] == (key, r.value)
                                 && forall j :: 0 <= j < i ==> entries[j].0 != key
  {
    if entries == [] then None
    else if entries[0].0 == key then Some(entries[0].1)
    else
      var r := Lookup(entries[1..], key);
      assert r.Some? ==> exists i :: 0 <= i < |entries| - 1 && entries[1..][i] == (key, r.value)
                                   && forall j :: 0 <= j < i ==> entries[1..][j].0 != key;
      if r.Some? then
        var i :| 0 <= i < |entries| - 1 && entries[1..][i] == (key, r.value)
                 && forall j :: 0 <= j < i ==> entries[1..][j].0 != key;
        assert forall j :: 0 <= j < i + 1 ==> entries[j].0 != key by {
          forall j | 0 <= j < i + 1 ensures entries[j].0 != key {
            if j > 0 { assert entries[j] == entries[1..][j - 1]; }
          }
        }
        r
      else
        r
  }

  /**
   * Python's `d.get(key, {})`: None where `d` is not a dictionary (the call
   * raises AttributeError), the empty object where the key is absent.
   */
  function GetOrEmpty(d: Json, key: string): (r: Option<Json>)
    ensures r.Some? <==> d.JObject?
    ensures d.JObject? && Lookup(d.entries, key).None? ==> r == Some(JObject([]))
    ensures d.JObject? && Lookup(d.entries, key).Some? ==> r == Lookup(d.entries, key)
  {
    match d
    case JObject(entries) => Some(Lookup(entries, key).GetOr(JObject([])))
    case _ => None
  }
}
