/**
 * A parsed JSON document as the source sees it after `json.load`: dicts
 * are member sequences in insertion order, and the few Python operations
 * the edits use (`get` with a default, item assignment, truthiness,
 * iteration, `startswith`) are stated on them.
 */
module JsonTree {
  import opened Wrappers

  datatype Json =
    | JNull
    | JBool(b: bool)
    | JNumber(n: real)
    | JString(s: string)
    | JArray(items: seq<Json>)
    | JObject(members: seq<(string, Json)>)

  /** Why a Python operation on a JSON value raises. */
  datatype PyError =
    | NoGet           // `.get` on a value that is not a dict
    | NotIterable     // `for x in v` on null, a boolean or a number
    | NoItemAssign    // `v[k] = …` on a value that is not a dict
    | NoStartswith    // `.startswith` on a value that is not a string

  /** `d.get(k)` on a dict's members: the first member with that key. */
  function Lookup(ms: seq<(string, Json)>, k: string): (r: Option<Json>)
    ensures r.None? <==> forall i :: 0 <= i < |ms| ==> ms[i].0 != k
    ensures r.Some? ==> exists i :: 0 <= i < |ms| && ms[i] == (k, r.value)
    decreases |ms|
  {
    if ms == [] then None
    else if ms[0].0 == k then Some(ms[0].1)
    else
      var r := Lookup(ms[1..], k);
      assert forall i :: 1 <= i < |ms| ==> ms[i] == ms[1..][i - 1];
      r
  }

  /** `d.get(k, default)` */
  function GetOr(ms: seq<(string, Json)>, k: string, default: Json): Json
  {
    match Lookup(ms, k)
    case Some(v) => v
    case None => default
  }

  /**
   * `d[k] = v`: an existing key keeps its place and takes the new value, a
   * new key is appended.
   */
  function Assign(ms: seq<(string, Json)>, k: string, v: Json): (r: seq<(string, Json)>)
    ensures Lookup(r, k) == Some(v)
    ensures forall k' :: k' != k ==> Lookup(r, k') == Lookup(ms, k')
    ensures Lookup(ms, k).Some? ==> |r| == |ms| && forall i :: 0 <= i < |ms| ==> r[i].0 == ms[i].0
    ensures Lookup(ms, k).None? ==> r == ms + [(k, v)]
    decreases |ms|
  {
    if ms == [] then [(k, v)]
    else if ms[0].0 == k then [(k, v)] + ms[1..]
    else
      var r := [ms[0]] + Assign(ms[1..], k, v);
      assert ms == [ms[0]] + ms[1..];
      assert forall k' :: Lookup(r, k') == if k' == ms[0].0 then Some(ms[0].1) else Lookup(r[1..], k');
      assert forall k' :: Lookup(ms, k') == if k' == ms[0].0 then Some(ms[0].1) else Lookup(ms[1..], k');
      r
  }

  /** A second assignment to the same key overrides the first. */
  lemma {:induction false} AssignOverwrite(ms: seq<(string, Json)>, k: string, v1: Json, v2: Json)
    ensures Assign(Assign(ms, k, v1), k, v2) == Assign(ms, k, v2)
    decreases |ms|
  {
    if ms != [] && ms[0].0 != k {
      AssignOverwrite(ms[1..], k, v1, v2);
    }
  }

  /** Assigning the value a key already holds changes nothing. */
  lemma {:induction false} AssignSame(ms: seq<(string, Json)>, k: string, v: Json)
    requires Lookup(ms, k) == Some(v)
    ensures Assign(ms, k, v) == ms
    decreases |ms|
  {
    if ms[0].0 != k {
      AssignSame(ms[1..], k, v);
    }
  }

  /** Python truthiness: null, false, 0, "", [] and {} are false. */
  predicate Truthy(j: Json)
  {
    match j
    case JNull => false
    case JBool(b) => b
    case JNumber(n) => n != 0.0
    case JString(s) => s != []
    case JArray(items) => items != []
    case JObject(ms) => ms != []
  }

  /**
   * `for x in v`: a list yields its items, a dict its keys, a string its
   * one-character strings; anything else raises.
   */
  function Iterate(j: Json): (r: Result<seq<Json>, PyError>)
    ensures r.Err? <==> j.JNull? || j.JBool? || j.JNumber?
    ensures r.Ok? && !j.JArray? ==> forall i :: 0 <= i < |r.value| ==> r.value[i].JString?
    ensures r.Ok? ==> (r.value == [] <==> !Truthy(j))
  {
    match j
    case JArray(items) => Ok(items)
    case JObject(ms) => Ok(seq(|ms|, i requires 0 <= i < |ms| => JString(ms[i].0)))
    case JString(s) => Ok(seq(|s|, i requires 0 <= i < |s| => JString([s[i]])))
    case _ => Err(NotIterable)
  }

  /** `s.startswith("http")` */
  predicate IsRemote(s: string)
  {
    "http" <= s
  }
}
