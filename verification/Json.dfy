/**
  Decoded response bodies. A Go `map[string]interface{}` is an `Object`; every other dynamic type is
  kept only as far as the gateway looks at it.
 */
module Json {
  import opened Wrappers

  type Fields = map<string, Value>

  type Path = seq<string>

  datatype Value =
    | Object(fields: Fields)
    | List(items: seq<Value>)
    | Text(text: string)
    | Scalar(printed: string)
    | Null

  /** The value found by following `p` through nested objects. */
  function At(v: Value, p: Path): Option<Value>
    decreases |p|
  {
    if p == [] then Some(v)
    else if v.Object? && p[0] in v.fields then At(v.fields[p[0]], p[1..])
    else None
  }

  predicate Has(v: Value, p: Path) {
    At(v, p).Some?
  }

  /** Splitting never gives an empty path. */
  predicate Proper(list: seq<Path>) {
    forall i | 0 <= i < |list| :: list[i] != []
  }

  /** One of the two paths continues the other. */
  predicate Comparable(p: Path, q: Path) {
    p <= q || q <= p
  }
}
