/**
 * Python values as they appear in the library: node payloads, attribute
 * values, and the host trees that `parse` turns into nodes.  A float keeps
 * its literal text, because float conversion and `str(float)` are not
 * part of this model.
 */
module Values {

  datatype Value =
    | Null
    | Bool(b: bool)
    | Int(i: int)
    | Float(text: string)
    | Str(s: string)
    | List(items: seq<Value>)
    | Dict(entries: seq<(string, Value)>)
    /** A Python object of any other type (a tuple, a set, a class instance). */
    | Unsupported(typeName: string)

  /** The types `parse` sends to `parse_primitive`: str, int, float, bool and None. */
  predicate IsPrimitive(v: Value)
  {
    v.Null? || v.Bool? || v.Int? || v.Float? || v.Str?
  }
}
