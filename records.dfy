/**
 * The decoded record: measurement names mapped to integers (serial and
 * timestamp), scaled numbers and strings (units and the version).
 */
module Records {

  datatype Value = Int(i: int) | Real(r: real) | Str(s: string)

  type Record = map<string, Value>

  /** `dict.get(key, default)`. */
  function Get(values: Record, key: string, default: Value): (v: Value)
    ensures key in values ==> v == values[key]
    ensures key !in values ==> v == default
  {
    if key in values then values[key] else default
  }

  /** The dictionary a decode fills in and the current-sign pass rewrites in place. */
  class Measurements {
    var entries: Record

    constructor ()
      ensures entries == map[]
    {
      entries := map[];
    }

    /** `values[key] = v`. */
    method Put(key: string, v: Value)
      modifies this
      ensures entries == old(entries)[key := v]
    {
      entries := entries[key := v];
    }
  }
}
