/** Shared vocabulary: optional values, the loosely typed values that PHP
    options, block attributes and JSON settings carry, their truthiness in
    PHP and in JavaScript, and the result of `Math.random()`. */
module Common {

  /** `None` stands for JavaScript's `undefined`/`null`, PHP's unset key,
      or `NaN` where a parse failed. */
  datatype Option<T> = None | Some(value: T) {
    function GetOr(default: T): T {
      match this
      case Some(v) => v
      case None => default
    }
  }

  /** A value as stored in WordPress options, block attributes and post meta,
      or as carried into a page by `wp_json_encode`. Floats are not modelled. */
  datatype Value =
    | Null
    | Bool(b: bool)
    | Int(i: int)
    | Str(s: string)
    | List(items: seq<Value>)

  /** PHP's `(bool)` cast: `""`, `"0"`, `0`, `null`, `false` and `[]` are false. */
  predicate PhpTruthy(v: Value) {
    match v
    case Null => false
    case Bool(b) => b
    case Int(i) => i != 0
    case Str(s) => s != "" && s != "0"
    case List(xs) => |xs| > 0
  }

  /** `isset($m[$k]) && $m[$k]`, and equally `isset($m[$k]) ? (bool) $m[$k] : false`. */
  predicate IsSetAndTruthy(m: map<string, Value>, k: string) {
    k in m && m[k] != Null && PhpTruthy(m[k])
  }

  /** JavaScript truthiness of an optional value; unlike PHP, `"0"` and `[]` are true. */
  predicate JsTruthy(v: Option<Value>) {
    match v
    case None => false
    case Some(Null) => false
    case Some(Bool(b)) => b
    case Some(Int(i)) => i != 0
    case Some(Str(s)) => s != ""
    case Some(List(_)) => true
  }

  /** A result of `Math.random()`. */
  type Draw = u: real | 0.0 <= u < 1.0
}
