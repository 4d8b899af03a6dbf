/**
 This module models the PHP values the plugin handles: settings entries,
 decoded provider responses and location records. PHP arrays are split into
 lists (integer keys 0..n-1) and dictionaries (string keys); numbers are
 kept uninterpreted and carried as PHP's own string rendering of them.
 */
module PhpValues {

  datatype Value =
    | Null
    | Bool(b: bool)
    /** An int or a float; `text` is what PHP's string cast prints for it. */
    | Num(text: string)
    | Str(s: string)
    | List(items: seq<Value>)
    | Dict(fields: map<string, Value>)

  /** A location record, a settings array: string keys to values. */
  type Record = map<string, Value>

  /** PHP `is_array`. */
  predicate IsArray(v: Value) {
    v.List? || v.Dict?
  }

  /** PHP `!empty($v)`: everything but null, false, 0, "", "0" and the empty array. */
  predicate Truthy(v: Value) {
    match v
    case Null => false
    case Bool(b) => b
    case Num(t) => t != "0" && t != "-0"
    case Str(s) => s != "" && s != "0"
    case List(items) => |items| > 0
    case Dict(m) => |m| > 0
  }

  /** PHP `isset($v)`: anything but null. */
  predicate IsSet(v: Value) {
    !v.Null?
  }

  /** `$r[$key]` on an array with string keys; an absent key reads as null. */
  function Get(r: Record, key: string): (v: Value)
    ensures key !in r ==> v == Null
    ensures key in r ==> v == r[key]
  {
    if key in r then r[key] else Null
  }

  /**
   `$v[$key]` on an arbitrary value: only a dictionary has string keys, so
   every other value reads as null (and `isset` on it is false).
   */
  function Index(v: Value, key: string): (r: Value)
    ensures IsSet(r) ==> v.Dict? && key in v.fields && r == v.fields[key]
  {
    if v.Dict? then Get(v.fields, key) else Null
  }

  /**
   Gravity Forms' `rgar($array, $key, $default)`: the entry when it is set and
   not empty, else the default. With a null default an empty entry is kept,
   and an unset one reads as "".
   */
  function Rgar(r: Record, key: string, default: Value): (v: Value)
    ensures Truthy(Get(r, key)) ==> v == r[key]
    ensures !Truthy(Get(r, key)) && IsSet(default) ==> v == default
    ensures !Truthy(Get(r, key)) && !IsSet(default) ==> v == (if IsSet(Get(r, key)) then r[key] else Str(""))
  {
    var value := if IsSet(Get(r, key)) then r[key] else Str("");
    if !Truthy(value) && IsSet(default) then default else value
  }

  /** PHP's `(string)` cast, as used by concatenation and `sprintf('%s')`. */
  function Text(v: Value): string {
    match v
    case Null => ""
    case Bool(b) => if b then "1" else ""
    case Num(t) => t
    case Str(s) => s
    case List(_) => "Array"
    case Dict(_) => "Array"
  }

  /** The values an array holds, as `in_array` and `empty` see them. */
  function Elements(v: Value): (e: set<Value>)
    requires IsArray(v)
    ensures |e| == 0 <==> !Truthy(v)
  {
    match v
    case List(items) =>
      var e := set x | x in items;
      assert |items| > 0 ==> items[0] in e;
      e
    case Dict(m) =>
      assert |m| > 0 ==> (var k :| k in m; m[k] in m.Values);
      m.Values
  }

  /** PHP's `(array)` cast, seen through its values: null gives none, a scalar gives itself. */
  function CastElements(v: Value): (e: set<Value>)
    ensures IsArray(v) ==> e == Elements(v)
    ensures v.Null? ==> e == {}
    ensures !IsArray(v) && IsSet(v) ==> e == {v}
  {
    if IsArray(v) then Elements(v) else if v.Null? then {} else {v}
  }
}
