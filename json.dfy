/**
 * The JSON-like values the folder comparison assembles (nested dicts of
 * lists of names), Python's truthiness on them, and `clean_empty_dicts`,
 * the deep-prune that drops every dict entry whose cleaned value is falsy.
 */
module Json {

  /** A Python value as `json.dump` would see it; a dict's insertion order is not kept. */
  datatype Value =
    | Dict(entries: map<string, Value>)
    | List(items: seq<Value>)
    | Null
    | Bool(b: bool)
    | Int(n: int)
    | Str(s: string)

  /** Python's `bool(v)`: empty containers, `None`, `False`, `0` and `""` are falsy. */
  predicate Truthy(v: Value) {
    match v
    case Dict(m) => m != map[]
    case List(xs) => xs != []
    case Null => false
    case Bool(b) => b
    case Int(n) => n != 0
    case Str(s) => s != ""
  }

  /**
   * `clean_empty_dicts`: a dict keeps exactly the keys whose recursively
   * cleaned value is truthy, under the cleaned value; an empty list becomes
   * `None`; a non-empty list is returned as it is, without looking inside;
   * every other value is returned unchanged.
   */
  function Clean(v: Value): (r: Value)
    ensures r.Dict? <==> v.Dict?
    ensures r.Dict? ==> r.entries.Keys <= v.entries.Keys
    ensures r.Dict? ==> forall k :: k in r.entries ==> Truthy(r.entries[k])
    ensures v.List? ==> r == (if v.items == [] then Null else v)
    ensures !v.Dict? && !v.List? ==> r == v
  {
    match v
    case Dict(m) => Dict(map k | k in m && Truthy(Clean(m[k])) :: Clean(m[k]))
    case List(xs) => if xs == [] then Null else v
    case _ => v
  }

  /** No dict anywhere inside `v` (looking through dicts only, as Clean does) holds a falsy value. */
  predicate NoFalsyMembers(v: Value) {
    match v
    case Dict(m) => forall k :: k in m ==> Truthy(m[k]) && NoFalsyMembers(m[k])
    case _ => true
  }

  /** A cleaned dict holds, under each key it keeps, the cleaned input value, and drops a key exactly when that value cleans to something falsy. */
  lemma CleanDictEntries(m: map<string, Value>, k: string)
    ensures k in Clean(Dict(m)).entries <==> k in m && Truthy(Clean(m[k]))
    ensures k in Clean(Dict(m)).entries ==> Clean(Dict(m)).entries[k] == Clean(m[k])
  {
  }

  /** The prune is deep through dicts: after cleaning, no dict reachable through dicts alone holds an empty dict, `None`, an empty list, `0`, `False` or `""`; a dict inside a kept list is not cleaned. */
  lemma {:induction false} CleanLeavesNoFalsyMembers(v: Value)
    ensures NoFalsyMembers(Clean(v))
  {
    match v
    case Dict(m) =>
      forall k | k in m {
        CleanLeavesNoFalsyMembers(m[k]);
      }
    case _ =>
  }

  /** Cleaning a cleaned value changes nothing. */
  lemma {:induction false} CleanIdempotent(v: Value)
    ensures Clean(Clean(v)) == Clean(v)
  {
    match v
    case Dict(m) =>
      forall k | k in m {
        CleanIdempotent(m[k]);
      }
      var once := Clean(v).entries;
      assert Clean(Clean(v)).entries == once;
    case List(xs) =>
    case _ =>
  }

  /** A cleaned dict is truthy exactly when one of its input values cleans to something truthy. */
  lemma CleanDictTruthy(m: map<string, Value>)
    ensures Truthy(Clean(Dict(m))) <==> exists k :: k in m && Truthy(Clean(m[k]))
  {
    if k :| k in m && Truthy(Clean(m[k])) {
      assert k in Clean(Dict(m)).entries;
    }
  }
}
