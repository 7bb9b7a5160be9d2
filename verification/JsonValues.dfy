/** JSON values with the accessors the Rust code uses on them.

  An integer literal and a float literal are different values, as they are for
  `serde_json`, so an id `1.0` never equals the request id `1`.
 */
module JsonValues {
  import opened Wrappers

  datatype Json =
    | Null
    | Bool(b: bool)
    | Int(n: int)
    | Float(x: real)
    | Str(s: string)
    | Arr(items: seq<Json>)
    | Obj(fields: map<string, Json>)
  {
    /** `get`: absent on anything but an object that binds the key. */
    function Get(key: string): Option<Json> {
      if Obj? && key in fields then Some(fields[key]) else None
    }

    /** Indexing by a key: `null` where `Get` finds nothing. */
    function At(key: string): Json {
      if Obj? && key in fields then fields[key] else Null
    }

    function AsStr(): Option<string> {
      if Str? then Some(s) else None
    }

    /** Integers that fit a signed 64-bit word. */
    function AsI64(): Option<int> {
      if Int? && -0x8000_0000_0000_0000 <= n < 0x8000_0000_0000_0000 then Some(n) else None
    }
  }

  /** `get(key)` followed by `as_str`. */
  function StringField(j: Json, key: string): Option<string> {
    if j.Get(key).Some? then j.Get(key).value.AsStr() else None
  }
}
