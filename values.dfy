/** The dynamically typed values a caller can hand to the scheduler. */
module Values {

  datatype Option<+T> = None | Some(value: T)

  /** An opaque identity for a callable; what the callable does is not modelled. */
  type FnId = nat

  /** A JavaScript value, as far as the validator can tell kinds apart.
      An object's fields are listed in the object's own key order. */
  datatype Value =
    | Null
    | Undefined
    | Str(s: string)
    | Num(n: int)
    | Bool(b: bool)
    | Arr(elems: seq<Value>)
    | SetV(members: seq<Value>)
    | MapV(entries: seq<(Value, Value)>)
    | Fn(id: FnId)
    | Obj(fields: seq<(string, Value)>)

  /** A plain object never repeats a key. */
  predicate UniqueKeys(v: Value) {
    v.Obj? ==> forall i, j :: 0 <= i < j < |v.fields| ==> v.fields[i].0 != v.fields[j].0
  }

  /** The value stored under `key`, taking the first field with that key. */
  function Lookup(fields: seq<(string, Value)>, key: string): (r: Option<Value>)
    ensures r.None? <==> forall k :: 0 <= k < |fields| ==> fields[k].0 != key
    ensures r.Some? ==> (key, r.value) in fields
  {
    if fields == [] then None
    else if fields[0].0 == key then Some(fields[0].1)
    else Lookup(fields[1..], key)
  }
}
