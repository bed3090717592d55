/**
 * JSON values as the Python code holds them after `json.load`, records (`dict`s keyed by
 * strings), Python's `==` and truthiness on them, and the lookups by `transaction_id` that
 * the API and the benchmark share.
 */
module Json {
  import opened Wrappers

  /**
   * Integers and floats are kept apart, as `json` parses them. Floats are exact here, so this
   * type has no `NaN` and no infinities, which `json.loads` also accepts.
   */
  datatype Json =
    | JNull
    | JBool(b: bool)
    | JInt(i: int)
    | JFloat(f: real)
    | JStr(s: string)
    | JArr(items: seq<Json>)
    | JObj(fields: map<string, Json>)

  type Record = map<string, Json>

  const TransactionId: string := "transaction_id"

  predicate IsNumber(v: Json) { v.JBool? || v.JInt? || v.JFloat? }

  /** The numeric value Python compares by: `True == 1` and `1 == 1.0`. */
  function NumericValue(v: Json): real
    requires IsNumber(v)
  {
    match v
    case JBool(b) => if b then 1.0 else 0.0
    case JInt(i) => i as real
    case JFloat(f) => f
  }

  /** Python's `==` on the values `json` produces. */
  predicate PyEq(a: Json, b: Json)
    decreases a
  {
    if IsNumber(a) && IsNumber(b) then NumericValue(a) == NumericValue(b)
    else match a
      case JNull => b.JNull?
      case JStr(x) => b.JStr? && b.s == x
      case JArr(xs) => b.JArr? && |xs| == |b.items| && forall i :: 0 <= i < |xs| ==> PyEq(xs[i], b.items[i])
      case JObj(m) => b.JObj? && m.Keys == b.fields.Keys && forall k :: k in m ==> PyEq(m[k], b.fields[k])
      case _ => false
  }

  /** Against a string, Python's `==` is plain equality. */
  lemma PyEqString(v: Json, t: string)
    ensures PyEq(v, JStr(t)) <==> v == JStr(t)
  {
  }

  /** Every value of this type equals itself; a `NaN` in the source would not, and is not modelled. */
  lemma {:induction false} PyEqReflexive(a: Json)
    ensures PyEq(a, a)
    decreases a
  {
    match a
    case JArr(xs) =>
      forall i | 0 <= i < |xs| ensures PyEq(xs[i], xs[i]) {
        PyEqReflexive(xs[i]);
      }
    case JObj(m) =>
      forall k | k in m ensures PyEq(m[k], m[k]) {
        PyEqReflexive(m[k]);
      }
    case _ =>
  }

  /** Python's `==` on these values is symmetric. */
  lemma {:induction false} PyEqSymmetric(a: Json, b: Json)
    requires PyEq(a, b)
    ensures PyEq(b, a)
    decreases a
  {
    if IsNumber(a) && IsNumber(b) {
    } else {
      match a
      case JNull =>
      case JStr(x) =>
      case JArr(xs) =>
        forall i | 0 <= i < |xs| ensures PyEq(b.items[i], xs[i]) {
          PyEqSymmetric(xs[i], b.items[i]);
        }
      case JObj(m) =>
        forall k | k in b.fields ensures PyEq(b.fields[k], m[k]) {
          PyEqSymmetric(m[k], b.fields[k]);
        }
    }
  }

  /** Python's `==` on these values is transitive. */
  lemma {:induction false} PyEqTransitive(a: Json, b: Json, c: Json)
    requires PyEq(a, b) && PyEq(b, c)
    ensures PyEq(a, c)
    decreases a
  {
    if IsNumber(a) && IsNumber(b) {
    } else {
      match a
      case JNull =>
      case JStr(x) =>
      case JArr(xs) =>
        forall i | 0 <= i < |xs| ensures PyEq(xs[i], c.items[i]) {
          PyEqTransitive(xs[i], b.items[i], c.items[i]);
        }
      case JObj(m) =>
        forall k | k in m ensures PyEq(m[k], c.fields[k]) {
          PyEqTransitive(m[k], b.fields[k], c.fields[k]);
        }
    }
  }

  /** `bool(v)`: `None`, `False`, zero, and empty strings, lists and dicts are falsy. */
  predicate Truthy(v: Json) {
    match v
    case JNull => false
    case JBool(b) => b
    case JInt(i) => i != 0
    case JFloat(f) => f != 0.0
    case JStr(s) => s != []
    case JArr(xs) => xs != []
    case JObj(m) => m != map[]
  }

  /** `r.get(key)`: a missing key reads as `None`. */
  function Get(r: Record, key: string): Json {
    if key in r then r[key] else JNull
  }

  /** `r.get('transaction_id') == tid` for a string `tid`. */
  predicate HasId(r: Record, tid: string) {
    PyEq(Get(r, TransactionId), JStr(tid))
  }

  /** The position of the first record whose id is `tid`, or `|records|` when there is none. */
  function FirstIndex(records: seq<Record>, tid: string): (k: nat)
    ensures k <= |records|
    ensures forall j :: 0 <= j < k ==> !HasId(records[j], tid)
    ensures k < |records| ==> HasId(records[k], tid)
  {
    if records == [] then 0
    else if HasId(records[0], tid) then 0
    else 1 + FirstIndex(records[1..], tid)
  }

  /** No two records carry ids that Python considers equal. */
  predicate DistinctIds(records: seq<Record>) {
    forall i, j :: 0 <= i < j < |records| ==> !PyEq(Get(records[i], TransactionId), Get(records[j], TransactionId))
  }
}
