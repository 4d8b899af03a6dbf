/**
 The WordPress and PHP library calls the plugin relies on, passed in as
 uninterpreted functions, and the two value helpers derived from them.
 */
module Platform {
  import opened Wrappers
  import opened PhpValues

  datatype Env = Env(
    /** `sanitize_text_field` applied to a string. */
    sanitizeText: string -> string,
    /** `is_numeric` applied to a string. */
    isNumericText: string -> bool,
    /** `filter_var($ip, FILTER_VALIDATE_IP) !== false`. */
    isValidIp: string -> bool,
    /** `json_decode($s, true)`; `None` when `json_last_error()` reports an error. */
    jsonDecode: string -> Option<Value>
  )

  /** `sanitize_text_field($v)`: arrays give "", everything else is cast to a string first. */
  function SanitizeField(env: Env, v: Value): (r: string)
    ensures IsArray(v) ==> r == ""
    ensures !IsArray(v) ==> r == env.sanitizeText(Text(v))
  {
    if IsArray(v) then "" else env.sanitizeText(Text(v))
  }

  /** PHP `is_numeric($v)`: numbers and numeric strings, never booleans, null or arrays. */
  predicate IsNumeric(env: Env, v: Value) {
    v.Num? || (v.Str? && env.isNumericText(v.s))
  }
}
