/**
 * The dynamically typed scalar values that flow through the pipeline's
 * dictionaries (log records, alert records, parameters), and the few
 * Python builtins applied to them.
 */
module Values {
  import opened Text

  /** A Python scalar: None, bool, int, float (NaN kept apart) or str. */
  datatype Value = VNone | VBool(b: bool) | VInt(i: int) | VFloat(x: real) | VNaN | VStr(s: string)

  /** A dictionary of scalars (field order is not observable where this is used). */
  type Record = map<string, Value>

  /** The process environment: variable name to text. */
  type Env = map<string, string>

  /** `os.getenv(name, default)` for a text default. */
  function GetEnv(env: Env, name: string, default: string): (r: string)
    ensures name !in env ==> r == default
    ensures name in env ==> r == env[name]
  {
    if name in env then env[name] else default
  }

  /** Python's `v == v`, false only for NaN. */
  predicate SelfEqual(v: Value) { !v.VNaN? }

  /** Python's `bool(v)`. */
  predicate Truthy(v: Value) {
    match v
    case VNone => false
    case VBool(b) => b
    case VInt(i) => i != 0
    case VFloat(x) => x != 0.0
    case VNaN => true
    case VStr(s) => |s| > 0
  }

  /**
   * Python's `str(v)`. The decimal rendering of a float (its repr) is
   * Python's own and is supplied by the caller.
   */
  function PyStr(v: Value, floatRepr: real -> string): string {
    match v
    case VNone => "None"
    case VBool(b) => if b then "True" else "False"
    case VInt(i) => IntToString(i)
    case VFloat(x) => floatRepr(x)
    case VNaN => "nan"
    case VStr(s) => s
  }
}
