/**
 * JSON-shaped values as the scripts see them after `json.load`, with the bits
 * of Python semantics the scripts rely on: truthiness, `dict.get`, `==`
 * (where `True == 1`), hashability and `str()`.
 *
 * Floating-point numbers are not part of this model.
 */
module PyJson {

  datatype Json =
    | JNull
    | JBool(b: bool)
    | JInt(i: int)
    | JStr(s: string)
    | JArr(items: seq<Json>)
    | JObj(fields: map<string, Json>)

  /** Python truthiness: `if v:` */
  predicate Truthy(v: Json) {
    match v
    case JNull => false
    case JBool(b) => b
    case JInt(i) => i != 0
    case JStr(s) => |s| > 0
    case JArr(xs) => |xs| > 0
    case JObj(m) => |m| > 0
  }

  /** `d.get(key)`: the stored value, or None when the key is absent. */
  function Get(d: map<string, Json>, key: string): Json {
    if key in d then d[key] else JNull
  }

  /** `d.get(key, default)` */
  function GetOr(d: map<string, Json>, key: string, default: Json): Json {
    if key in d then d[key] else default
  }

  /** `bool` is a subclass of `int` in Python, so both take part in numeric `==`. */
  predicate Numeric(v: Json) {
    v.JBool? || v.JInt?
  }

  function NumValue(v: Json): int
    requires Numeric(v)
  {
    if v.JBool? then (if v.b then 1 else 0) else v.i
  }

  /** Python `a == b` on JSON values. */
  predicate PyEq(a: Json, b: Json)
    decreases a
  {
    if Numeric(a) || Numeric(b) then
      Numeric(a) && Numeric(b) && NumValue(a) == NumValue(b)
    else
      match a
      case JNull => b.JNull?
      case JStr(s) => b.JStr? && b.s == s
      case JArr(xs) =>
        b.JArr? && |xs| == |b.items| && forall i :: 0 <= i < |xs| ==> PyEq(xs[i], b.items[i])
      case JObj(m) =>
        b.JObj? && m.Keys == b.fields.Keys && forall k :: k in m ==> PyEq(m[k], b.fields[k])
  }

  /** Lists and dicts cannot be dictionary keys (`TypeError: unhashable type`). */
  predicate Hashable(v: Json) {
    !v.JArr? && !v.JObj?
  }

  function DigitChar(d: nat): char
    requires d < 10
  {
    "0123456789"[d]
  }

  /** `str(n)` for a non-negative int. */
  function NatToDecimal(n: nat): (r: string)
    ensures |r| > 0
    ensures forall c :: c in r ==> '0' <= c <= '9'
  {
    if n < 10 then [DigitChar(n)] else NatToDecimal(n / 10) + [DigitChar(n % 10)]
  }

  /** `str(i)` for an int. */
  function IntToDecimal(i: int): string {
    if i < 0 then "-" + NatToDecimal(-i) else NatToDecimal(i)
  }

  /**
   * Python `str(v)` (and `f"{v}"`, which agrees with it on these types).
   * Lists and dicts are printed through their elements' `repr`, whose quoting,
   * escaping and key order this model does not describe: that rendering is
   * the parameter `containerStr`.
   */
  function PyStr(v: Json, containerStr: Json -> string): string {
    match v
    case JNull => "None"
    case JBool(b) => if b then "True" else "False"
    case JInt(i) => IntToDecimal(i)
    case JStr(s) => s
    case _ => containerStr(v)
  }
}
