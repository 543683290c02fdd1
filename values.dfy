/**
 * PHP values as the backend handles them after `json_decode($s, true)` or a
 * PDO fetch: null, booleans, integers, strings, lists and string-keyed
 * arrays, with the conversions PHP applies to them (truthiness, `(int)`,
 * `(string)`, `isset`/`??`, loose `==` against an integer).
 */
module Values {
  import opened Optional
  import PhpStr

  datatype Value =
    | Null
    | Bool(b: bool)
    | Int(i: int)
    | Str(s: string)
    | List(items: seq<Value>)
    | Obj(fields: map<string, Value>)

  /** is_array($v): a JSON list or object decodes to a PHP array. */
  predicate IsArray(v: Value)
  {
    v.List? || v.Obj?
  }

  /** PHP truthiness: `if ($v)`, and `!empty($v)` on a set variable. */
  predicate Truthy(v: Value)
  {
    match v
    case Null => false
    case Bool(b) => b
    case Int(i) => i != 0
    case Str(s) => !PhpStr.IsFalsy(s)
    case List(items) => |items| > 0
    case Obj(fields) => |fields| > 0
  }

  /** isset($v[$k]) on a string key: present and not null (a list has only integer keys). */
  predicate IsSet(v: Value, k: string)
  {
    v.Obj? && k in v.fields && v.fields[k] != Null
  }

  /** `$v[$k] ?? null`. */
  function Field(v: Value, k: string): (r: Value)
    ensures IsSet(v, k) <==> r != Null
    ensures IsSet(v, k) ==> r == v.fields[k]
  {
    if v.Obj? && k in v.fields then v.fields[k] else Null
  }

  /** `$m[$k] ?? null` on a string-keyed array. */
  function Lookup(m: map<string, Value>, k: string): (r: Value)
    ensures k in m ==> r == m[k]
    ensures k !in m ==> r == Null
  {
    if k in m then m[k] else Null
  }

  /** `(int)$v`. */
  function IntCast(v: Value): int
  {
    match v
    case Null => 0
    case Bool(b) => if b then 1 else 0
    case Int(i) => i
    case Str(s) => PhpStr.Intval(s)
    case List(items) => if |items| == 0 then 0 else 1
    case Obj(fields) => if |fields| == 0 then 0 else 1
  }

  /** `(bool)$v`. */
  function BoolCast(v: Value): bool
  {
    Truthy(v)
  }

  /** `(string)$v` for a scalar, the conversion behind mb_strlen() and string building; None for an array (a TypeError). */
  function ToPhpString(v: Value): (r: Option<string>)
    ensures r.None? <==> IsArray(v)
  {
    match v
    case Null => Some("")
    case Bool(b) => Some(if b then "1" else "")
    case Int(i) => Some(PhpStr.DecimalString(i))
    case Str(s) => Some(s)
    case List(_) => None
    case Obj(_) => None
  }

  /**
   * PHP 8's loose comparison `$v == $n` against an integer literal: null and
   * booleans compare as booleans, an integer-numeric string by value, any
   * other string as the string of n, and an array is never equal.
   */
  predicate LooseEqualsInt(v: Value, n: int)
  {
    match v
    case Null => n == 0
    case Bool(b) => b == (n != 0)
    case Int(i) => i == n
    case Str(s) => if PhpStr.IsIntegerNumeric(s) then PhpStr.Intval(s) == n else s == PhpStr.DecimalString(n)
    case List(_) => false
    case Obj(_) => false
  }

  /** Loose `== n` agrees with `(int)` on the integers, booleans, null and integer-numeric strings. */
  lemma LooseEqualsIntCast(v: Value, n: int)
    requires v.Null? || v.Bool? || v.Int? || (v.Str? && PhpStr.IsIntegerNumeric(v.s))
    requires n == 0 || n == 1
    ensures LooseEqualsInt(v, n) <==> IntCast(v) == n
  {
  }
}
