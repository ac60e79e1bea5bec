/**
 * The Python values that occur in the metadata the extraction engine returns
 * (`info`) and in the result dictionary built from it.
 */
module Values {
  import opened Text

  datatype Value = VNone | VBool(b: bool) | VInt(i: int) | VStr(s: string)

  /** Python truthiness: None, False, 0 and "" are false. */
  predicate Truthy(v: Value) {
    match v
    case VNone => false
    case VBool(b) => b
    case VInt(i) => i != 0
    case VStr(s) => s != ""
  }

  /** `str(v)`, which is also what an f-string inserts. */
  function Render(v: Value): string {
    match v
    case VNone => "None"
    case VBool(b) => if b then "True" else "False"
    case VInt(i) => IntToDecimal(i)
    case VStr(s) => s
  }

  type Dict = map<string, Value>

  /** `d.get(key, default)`: the default only when the key is absent, not when it maps to None. */
  function GetOr(d: Dict, key: string, default: Value): (v: Value)
    ensures key in d ==> v == d[key]
    ensures key !in d ==> v == default
  {
    if key in d then d[key] else default
  }

  /** The dictionary holds `key`, bound to `v`. */
  predicate Maps(d: Dict, key: string, v: Value) {
    key in d && d[key] == v
  }

  /** `d.get(key)`. */
  function Get(d: Dict, key: string): Value {
    GetOr(d, key, VNone)
  }
}
