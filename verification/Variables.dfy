/** Variables: what a playbook run binds to names. */
module Variables {

  datatype Value =
    | Text(text: string)
    | Items(items: seq<Value>)
    | Registered(changed: bool, skipped: bool, failed: bool, payload: string, results: seq<Value>)
    | Opaque(id: nat)

  type Vars = map<string, Value>

  /** A Go map of variables: reached by reference, so that every holder sees a `Merge`. */
  class VarMap {
    var m: Vars

    constructor (m: Vars)
      ensures this.m == m
    {
      this.m := m;
    }

    /** `maps.Copy(v, other)`. */
    method Merge(other: Vars)
      modifies this
      ensures m == old(m) + other
    {
      m := m + other;
    }

    method Set(name: string, v: Value)
      modifies this
      ensures m == old(m)[name := v]
    {
      m := m[name := v];
    }
  }
}
