/** Values a property can hold, and the equality the store uses on them. */
module Values {

  datatype Option<+T> = None | Some(value: T) {
    function GetOr(default: T): T {
      if Some? then value else default
    }
  }

  /** The scalar types that survive the bus and the settings file unchanged. */
  datatype Scalar =
    | Str(s: string)
    | UChar(n: int)
    | UInt(n: int)
    | Int(n: int)
    | UInt64(n: int)
    | Int64(n: int)
    | Bool(b: bool)

  datatype Value = Single(x: Scalar) | Array(items: seq<Scalar>)

  /** _blconf_gvalue_is_equal: same type and same content, and never true of two arrays. */
  predicate GEqual(a: Value, b: Value) {
    a.Single? && b.Single? && a == b
  }
}
