/**
 * Decoded JSON values (RFC 8259) as Python's `json` module hands them over,
 * file contents as bytes, and the decoder seen from outside: an oracle that
 * turns bytes into a value or one of the two errors the catalogue tells apart.
 */
module JsonValues {

  newtype uint8 = x: int | 0 <= x < 256

  type Bytes = seq<uint8>

  /**
   * A decoded value. A float keeps its literal text: no floating-point
   * arithmetic is done on it anywhere in the catalogue.
   */
  datatype Json =
    | JNull
    | JBool(b: bool)
    | JInt(i: int)
    | JFloat(literal: string)
    | JString(s: string)
    | JArray(items: seq<Json>)
    | JObject(fields: map<string, Json>)

  /**
   * What `json.load` on a UTF-8 text file yields: a value, a
   * `json.JSONDecodeError`, or a `UnicodeDecodeError` for bytes that are not UTF-8.
   */
  datatype Decoded = Parsed(value: Json) | SyntaxError | EncodingError

  /** `isinstance(j, int)`: Python's `bool` is a subclass of `int`. */
  predicate IsPyInt(j: Json) {
    j.JInt? || j.JBool?
  }

  /** The integer Python sees in `j`: `True` is 1 and `False` is 0. */
  function PyIntValue(j: Json): (n: int)
    requires IsPyInt(j)
    ensures j.JInt? ==> JInt(n) == j
    ensures j.JBool? ==> (n == 0 || n == 1) && JBool(n == 1) == j
  {
    match j
    case JInt(i) => i
    case JBool(b) => if b then 1 else 0
  }
}
