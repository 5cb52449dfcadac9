/**
  JSON values as `json.load` hands them to the validator, and the few Python
  operations the validator applies to them: truthiness, `len`, equality with
  an integer and hashing as a dictionary key.
 */
module JsonValues {

  /** A parsed JSON value. Numbers are integers; objects are maps from keys to values. */
  datatype Json =
    | JNull
    | JBool(b: bool)
    | JNum(n: int)
    | JStr(s: string)
    | JArr(items: seq<Json>)
    | JObj(fields: map<string, Json>)

  /** A mod entry, or the top-level store object: the members of a JSON object. */
  type Object = map<string, Json>

  /** Python truthiness of a JSON value (`if value:`). */
  predicate Truthy(j: Json)
  {
    match j
    case JNull => false
    case JBool(b) => b
    case JNum(n) => n != 0
    case JStr(s) => s != ""
    case JArr(items) => items != []
    case JObj(fields) => |fields| != 0
  }

  /** The values on which Python's `len` is defined. */
  predicate Sized(j: Json)
  {
    j.JStr? || j.JArr? || j.JObj?
  }

  /** Python's `len` of a string, list or dictionary. */
  function Size(j: Json): nat
    requires Sized(j)
  {
    match j
    case JStr(s) => |s|
    case JArr(items) => |items|
    case JObj(fields) => |fields|
  }

  /** The values Python compares as integers (`bool` is a subclass of `int`). */
  predicate Numeric(j: Json)
  {
    j.JNum? || j.JBool?
  }

  /** The integer a numeric value stands for: `True` is 1 and `False` is 0. */
  function IntValue(j: Json): int
    requires Numeric(j)
  {
    if j.JBool? then (if j.b then 1 else 0) else j.n
  }

  /** Python's `==` between two JSON values that are not lists or dictionaries. */
  predicate PyEquals(x: Json, y: Json)
  {
    if Numeric(x) && Numeric(y) then IntValue(x) == IntValue(y) else x == y
  }

  /** Python's `j == n` for an integer `n`. */
  predicate EqualsInt(j: Json, n: int)
  {
    Numeric(j) && IntValue(j) == n
  }

  /** The values Python can use as dictionary keys (lists and dictionaries are unhashable). */
  predicate Hashable(j: Json)
  {
    !j.JArr? && !j.JObj?
  }

  /**
    The representative of the class of equal dictionary keys a hashable value
    falls in: `True` is in the class of `1` and `False` in that of `0`. Python
    keeps whichever object was inserted first; no message shows which.
   */
  function KeyOf(j: Json): (k: Json)
    requires Hashable(j)
    ensures Hashable(k) && !k.JBool?
  {
    if j.JBool? then JNum(IntValue(j)) else j
  }

  /** Two hashable values are the same dictionary key exactly when Python finds them equal. */
  lemma SameKeyIffEqual(x: Json, y: Json)
    requires Hashable(x) && Hashable(y)
    ensures KeyOf(x) == KeyOf(y) <==> PyEquals(x, y)
  {
  }
}
