/**
 * JSON values as JSON.parse returns them, and the JavaScript coercions the library applies to
 * them: property reads, truthiness, `x == 0` and string conversion.
 */
module Json {
  import opened MeshUtil

  /** A parsed JSON value. Numbers are integers: floating point is not modelled. */
  datatype Json =
    | JNull
    | JBool(b: bool)
    | JNum(n: int)
    | JStr(s: string)
    | JArr(items: seq<Json>)
    | JObj(props: map<string, Json>)

  /** A synchronous call that returns a value or throws. */
  datatype Attempt<T> = Returned(value: T) | Threw(error: Json)

  /** An object with a single property, as the library writes `{message: ...}`. */
  function Object1(key: string, value: Json): Json
  {
    JObj(map[key := value])
  }

  /** The value the library throws when it reads a property of undefined or null, or calls a missing method. */
  const TYPE_ERROR: Json := Object1("name", JStr("TypeError"))

  /**
   * Property read `j.key` on a value that is not null: undefined unless j is an object with that
   * key as its own property; a JSON null property reads as null. Inherited and built-in properties
   * (`constructor`, `toString`, an array's `length` or indices) are not modelled.
   */
  function Lookup(j: Json, key: string): (r: Js<Json>)
    ensures r.Defined? <==> j.JObj? && key in j.props && j.props[key] != JNull
    ensures r.Defined? ==> r.value == j.props[key] && r.value != JNull
    ensures r.Null? <==> j.JObj? && key in j.props && j.props[key] == JNull
  {
    if j.JObj? && key in j.props then
      if j.props[key] == JNull then Null else Defined(j.props[key])
    else Undefined
  }

  /** Undefined or null, in either spelling: reading a property such as `err.stack` of it throws a TypeError. */
  predicate Nullish(v: Js<Json>)
  {
    !IsDefined(v) || v.value == JNull
  }

  /** Reads a property that may hold JSON null back as a Json value (undefined stays absent). */
  function AsJs(j: Json): (r: Js<Json>)
    ensures IsDefined(r) <==> j != JNull
  {
    if j == JNull then Null else Defined(j)
  }

  /** JavaScript truthiness of a possibly undefined value. */
  function Truthy(v: Js<Json>): (r: bool)
    ensures !IsDefined(v) ==> !r
    ensures v.Defined? && v.value.JObj? ==> r
    ensures v.Defined? && v.value.JArr? ==> r
    ensures v == Defined(JBool(false)) || v == Defined(JNum(0)) || v == Defined(JStr("")) ==> !r
  {
    match v
    case Undefined => false
    case Null => false
    case Defined(j) =>
      match j
      case JNull => false
      case JBool(b) => b
      case JNum(n) => n != 0
      case JStr(s) => s != ""
      case JArr(_) => true
      case JObj(_) => true
  }

  /** The decimal digits of a natural number. */
  function NatDigits(n: nat): (r: string)
    ensures |r| >= 1
    ensures forall i :: 0 <= i < |r| ==> '0' <= r[i] <= '9'
    decreases n
  {
    var d := ['0' + (n % 10) as char];
    if n < 10 then d else NatDigits(n / 10) + d
  }

  /** Number-to-string conversion (`'' + n`) for integers. */
  function DecimalString(n: int): string
  {
    if n < 0 then "-" + NatDigits(-n) else NatDigits(n)
  }

  /** String conversion (`'' + j`, property-key conversion, Array.prototype.join). */
  function JsString(j: Json): string
    decreases j, 1
  {
    match j
    case JNull => "null"
    case JBool(b) => if b then "true" else "false"
    case JNum(n) => DecimalString(n)
    case JStr(s) => s
    case JArr(items) => JoinElements(items, 0)
    case JObj(_) => "[object Object]"
  }

  /** Array.prototype.join(",") from index i on: null elements become the empty string. */
  function JoinElements(items: seq<Json>, i: nat): string
    requires i <= |items|
    decreases JArr(items), 0, |items| - i
  {
    if i == |items| then ""
    else
      var piece := if items[i] == JNull then "" else JsString(items[i]);
      if i == |items| - 1 then piece else piece + "," + JoinElements(items, i + 1)
  }

  /** The white space and line terminators that string-to-number conversion trims. */
  predicate IsStrWhiteSpace(c: char)
  {
    var n := c as int;
    (0x09 <= n <= 0x0D) || n == 0x20 || n == 0xA0 || n == 0x1680 || (0x2000 <= n <= 0x200A)
    || n == 0x2028 || n == 0x2029 || n == 0x202F || n == 0x205F || n == 0x3000 || n == 0xFEFF
  }

  function TrimStart(s: string): (r: string)
    ensures |r| <= |s|
    ensures r == s[|s| - |r|..]
    ensures r != [] ==> !IsStrWhiteSpace(r[0])
  {
    if s != [] && IsStrWhiteSpace(s[0]) then TrimStart(s[1..]) else s
  }

  function TrimEnd(s: string): (r: string)
    ensures |r| <= |s|
    ensures r == s[..|r|]
    ensures r != [] ==> !IsStrWhiteSpace(r[|r| - 1])
  {
    if s != [] && IsStrWhiteSpace(s[|s| - 1]) then TrimEnd(s[..|s| - 1]) else s
  }

  predicate AllChar(s: string, c: char)
  {
    forall i :: 0 <= i < |s| ==> s[i] == c
  }

  predicate AllDigits(s: string)
  {
    forall i :: 0 <= i < |s| ==> '0' <= s[i] <= '9'
  }

  /** A decimal mantissa (`d.d`, `d.`, `.d` or `d`) whose digits are all zero. */
  predicate ZeroMantissa(m: string)
  {
    if '.' in m then
      exists i :: 0 <= i < |m| && m[i] == '.' && AllChar(m[..i], '0') && AllChar(m[i + 1..], '0') && |m| >= 2
    else |m| >= 1 && AllChar(m, '0')
  }

  /** An exponent part after `e` or `E`: an optional sign and at least one digit. */
  predicate ExponentDigits(x: string)
  {
    var d := if x != [] && (x[0] == '+' || x[0] == '-') then x[1..] else x;
    |d| >= 1 && AllDigits(d)
  }

  /** A trimmed, non-empty numeric literal whose value is zero (StringToNumber gives +0 or -0). */
  predicate ZeroNumeral(t: string)
  {
    // 0x0, 0o0 and 0b0 forms, unsigned
    (|t| >= 3 && t[0] == '0' && t[1] in "xXoObB" && AllChar(t[2..], '0'))
    ||
    // decimal, optionally signed, optionally with an exponent
    (var u := if t != [] && (t[0] == '+' || t[0] == '-') then t[1..] else t;
     if 'e' in u || 'E' in u then
       exists i :: 0 <= i < |u| && (u[i] == 'e' || u[i] == 'E') && ZeroMantissa(u[..i]) && ExponentDigits(u[i + 1..])
     else ZeroMantissa(u))
  }

  /** Whether a string converts to the number zero. */
  predicate StringIsZero(s: string)
  {
    var t := TrimEnd(TrimStart(s));
    t == [] || ZeroNumeral(t)
  }

  /**
   * Abstract equality `v == 0`: undefined and null are never equal to 0; booleans and strings
   * compare by their numeric value; arrays and objects by their string form.
   */
  function LooseEqualsZero(v: Js<Json>): (r: bool)
    ensures !IsDefined(v) ==> !r
    ensures v == Defined(JNum(0)) || v == Defined(JBool(false)) || v == Defined(JStr("")) ==> r
    ensures v == Defined(JBool(true)) ==> !r
  {
    match v
    case Undefined => false
    case Null => false
    case Defined(j) =>
      match j
      case JNull => false
      case JBool(b) => !b
      case JNum(n) => n == 0
      case JStr(s) => StringIsZero(s)
      case JArr(_) => StringIsZero(JsString(j))
      case JObj(_) => StringIsZero(JsString(j))
  }
}
