/**
 * The JSON-like values and plain-object records that the rights engine moves around.
 *
 * A record is a map from property name to value. A property that is not in the map reads
 * as `Undefined`, exactly as `obj.key` does for a missing key, so the strict comparisons
 * `a.policy === p.id` of the engine become `Field(a, "policy") == Field(p, "id")`.
 */
module Js {

  datatype Value =
    | Undefined
    | Null
    | Bool(b: bool)
    | Num(n: int)
    | Str(s: string)
    | Arr(items: seq<Value>)
    | Obj(fields: map<string, Value>)

  type Record = map<string, Value>

  /** `r.key`: the stored value, or `Undefined` for a missing key. */
  function Field(r: Record, key: string): (v: Value)
    ensures key !in r ==> v == Undefined
    ensures key in r ==> v == r[key]
  {
    if key in r then r[key] else Undefined
  }

  /** JavaScript truthiness: `undefined`, `null`, `false`, `0` and `""` are falsy. */
  predicate Truthy(v: Value) {
    match v
    case Undefined => false
    case Null => false
    case Bool(b) => b
    case Num(n) => n != 0
    case Str(s) => s != ""
    case Arr(_) => true
    case Obj(_) => true
  }

  /** lodash `omit(r, keys)`: a copy of `r` without the listed keys. */
  function Omit(r: Record, keys: set<string>): (o: Record)
    ensures o.Keys == r.Keys - keys
    ensures forall k :: k in o ==> o[k] == r[k]
  {
    r - keys
  }

  /** lodash `pick(r, keys)`: only the listed keys that `r` has. */
  function Pick(r: Record, keys: set<string>): (o: Record)
    ensures o.Keys == r.Keys * keys
    ensures forall k :: k in o ==> o[k] == r[k]
  {
    map k | k in r.Keys * keys :: r[k]
  }

  /** Omitting keys a record does not have leaves it unchanged. */
  lemma OmitAbsent(r: Record, keys: set<string>)
    requires forall k :: k in keys ==> k !in r
    ensures Omit(r, keys) == r
  {
    assert Omit(r, keys).Keys == r.Keys;
  }
}
