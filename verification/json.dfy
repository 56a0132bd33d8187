/**
 * JSON values as the dashboard's JavaScript sees them once parsed: request
 * bodies, response bodies, error payloads and query parameters.
 * Numbers are integers; an object is its list of (key, value) entries in
 * `Object.entries` order, keys distinct as in any JavaScript object.
 */
module Json {
  import opened Wrappers

  datatype Json =
    | JNull
    | JBool(b: bool)
    | JNum(n: int)
    | JStr(s: string)
    | JArr(items: seq<Json>)
    | JObj(fields: seq<(string, Json)>)

  /** JavaScript truthiness: `null`, `false`, `0` and `''` are falsy, arrays and objects truthy. */
  predicate Truthy(v: Json) {
    match v
    case JNull => false
    case JBool(b) => b
    case JNum(n) => n != 0
    case JStr(s) => s != ""
    case JArr(_) => true
    case JObj(_) => true
  }

  /** `undefined` is falsy too: an absent value is never truthy. */
  predicate TruthyOpt(v: Option<Json>) {
    v.Some? && Truthy(v.value)
  }

  /** The keys of an object, in entry order. */
  function Keys<V>(fields: seq<(string, V)>): (r: seq<string>)
    ensures |r| == |fields|
    ensures forall i :: 0 <= i < |fields| ==> r[i] == fields[i].0
    decreases |fields|
  {
    if fields == [] then [] else [fields[0].0] + Keys(fields[1..])
  }

  /** The value stored under `key`, or `None` (`undefined`) when the key is absent. */
  function Lookup<V>(fields: seq<(string, V)>, key: string): (r: Option<V>)
    ensures r.None? <==> key !in Keys(fields)
    decreases |fields|
  {
    if fields == [] then None
    else if fields[0].0 == key then Some(fields[0].1)
    else
      assert Keys(fields) == [fields[0].0] + Keys(fields[1..]);
      Lookup(fields[1..], key)
  }

  /** Property access `v.key` on a value that is not `null`; only objects have keys. */
  function Get(v: Json, key: string): Option<Json> {
    if v.JObj? then Lookup(v.fields, key) else None
  }

  /** `String(v)`: a string is itself; every other value is turned into text by `render`. */
  function StringOf(v: Json, render: Json -> string): (r: string)
    ensures v.JStr? ==> r == v.s
  {
    if v.JStr? then v.s else render(v)
  }

  /** `{ ...fields, [key]: v }`: an existing key keeps its place and takes the new value, a new key is appended. */
  function SetField<V>(fields: seq<(string, V)>, key: string, v: V): (r: seq<(string, V)>)
    ensures Lookup(r, key) == Some(v)
    ensures forall k :: k != key ==> Lookup(r, k) == Lookup(fields, k)
    decreases |fields|
  {
    if fields == [] then [(key, v)]
    else if fields[0].0 == key then [(key, v)] + fields[1..]
    else
      var rest := SetField(fields[1..], key, v);
      var r := [fields[0]] + rest;
      assert r[0] == fields[0] && r[1..] == rest;
      r
  }

  /** Spreading in a key keeps the keys in place, and appends the key when it is new. */
  lemma {:induction false} SetFieldKeys<V>(fields: seq<(string, V)>, key: string, v: V)
    ensures key in Keys(fields) ==> Keys(SetField(fields, key, v)) == Keys(fields)
    ensures key !in Keys(fields) ==> Keys(SetField(fields, key, v)) == Keys(fields) + [key]
    decreases |fields|
  {
    if fields != [] && fields[0].0 != key {
      var rest := SetField(fields[1..], key, v);
      SetFieldKeys(fields[1..], key, v);
      var r := [fields[0]] + rest;
      assert r[1..] == rest;
      assert Keys(r) == [fields[0].0] + Keys(rest);
      assert Keys(fields) == [fields[0].0] + Keys(fields[1..]);
    }
  }

  /** The rest object of `const { key, ...rest } = fields`: every other entry, in order. */
  function RemoveField<V>(fields: seq<(string, V)>, key: string): (r: seq<(string, V)>)
    ensures key !in Keys(r)
    ensures forall k :: k != key ==> Lookup(r, k) == Lookup(fields, k)
    ensures forall k :: k in Keys(r) <==> k in Keys(fields) && k != key
    decreases |fields|
  {
    if fields == [] then []
    else
      var rest := RemoveField(fields[1..], key);
      assert Keys(fields) == [fields[0].0] + Keys(fields[1..]);
      if fields[0].0 == key then rest
      else
        assert Keys([fields[0]] + rest) == [fields[0].0] + Keys(rest);
        assert ([fields[0]] + rest)[1..] == rest;
        [fields[0]] + rest
  }
}
