/**
 * Values as `json.load` produces them and as the writers inspect them
 * with `isinstance`: None, booleans, integers, floats, strings, lists and
 * dictionaries with string keys.
 */
module JsonValues {

  datatype Json =
    | JNull
    | JBool(b: bool)
    | JInt(i: int)
    | JFloat(r: real)
    | JStr(s: string)
    | JList(items: seq<Json>)
    | JDict(fields: map<string, Json>)

  /** `isinstance(v, int)`: Python's booleans are integers too. */
  predicate IsPyInt(v: Json) { v.JInt? || v.JBool? }

  /** The integer value of a Python integer (`True` is 1, `False` is 0). */
  function PyIntValue(v: Json): (n: int)
    requires IsPyInt(v)
    ensures v.JBool? ==> (n == 1 <==> v.b) && 0 <= n <= 1
  {
    if v.JBool? then (if v.b then 1 else 0) else v.i
  }

  /** `d.get(key, default)` */
  function Get(d: map<string, Json>, key: string, default: Json): Json {
    if key in d then d[key] else default
  }

  /** The three heading levels the output format allows. */
  predicate IsOutputLevel(v: Json) { v == JStr("H1") || v == JStr("H2") || v == JStr("H3") }

  /** A page field the validators accept: a non-negative Python integer. */
  predicate IsPageValue(v: Json) { IsPyInt(v) && PyIntValue(v) >= 0 }
}
