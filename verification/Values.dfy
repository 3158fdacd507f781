/** Configuration trees, as `serde_json::Value` represents them, and lookup along a path of object keys. */
module Values {

  datatype Option<+T> = None | Some(value: T)

  /** The result of code that may panic. */
  datatype Outcome<+T> = Done(value: T) | Panic {
    predicate IsFailure() {
      Panic?
    }

    function PropagateFailure<U>(): Outcome<U>
      requires Panic?
    {
      Panic
    }

    function Extract(): T
      requires Done?
    {
      value
    }
  }

  /** A JSON value. `Number` carries the text its `to_string` prints. */
  datatype Value =
    | Null
    | Bool(b: bool)
    | Number(text: string)
    | Str(s: string)
    | Arr(elems: seq<Value>)
    | Obj(members: map<string, Value>)

  type Path = seq<string>

  /** Texts by path. */
  type Entries = map<Path, string>

  /** The value bound at path `p` when only object members are followed. */
  function Lookup(v: Value, p: Path): Option<Value>
    decreases |p|
  {
    if p == [] then Some(v)
    else if v.Obj? && p[0] in v.members then Lookup(v.members[p[0]], p[1..])
    else None
  }

  /** `p` is a proper, non-empty prefix of `q`. */
  predicate ProperPrefix(p: Path, q: Path) {
    p != [] && p < q
  }

  /** `order` lists every element of `s` exactly once: one possible iteration of a hash map with these keys. */
  ghost predicate Enumerates<T(!new)>(order: seq<T>, s: set<T>) {
    && (forall i, j :: 0 <= i < j < |order| ==> order[i] != order[j])
    && (forall x :: x in s <==> x in order)
  }
}
