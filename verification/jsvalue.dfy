/** Values of a parsed request body. The service stores and echoes them
    verbatim, and it inspects them only with the falsy test `!x` and the
    `typeof x` test. */
module JsValue {

  /** A field of a decoded JSON or form-encoded body. Numbers are modelled as
      reals (JavaScript numbers are doubles; rounding is not modelled), with NaN
      kept apart because it is the one non-zero-looking falsy number. Arrays and
      objects keep their contents, so that a record stores, and the account
      listing echoes, exactly what the client sent. */
  datatype Value =
    | Undefined
    | Null
    | Bool(b: bool)
    | Num(x: real)
    | NaN
    | Str(s: string)
    | Arr(elems: seq<Value>)
    | Obj(members: map<string, Value>)

  /** ECMAScript ToBoolean: `!v` in the source is `!Truthy(v)` here. */
  predicate Truthy(v: Value) {
    match v
    case Undefined => false
    case Null => false
    case Bool(b) => b
    case Num(x) => x != 0.0
    case NaN => false
    case Str(s) => |s| > 0
    case Arr(_) => true
    case Obj(_) => true
  }

  /** The result of JavaScript's `typeof` operator (note `typeof null` is "object"). */
  function TypeOf(v: Value): string {
    match v
    case Undefined => "undefined"
    case Null => "object"
    case Bool(_) => "boolean"
    case Num(_) => "number"
    case NaN => "number"
    case Str(_) => "string"
    case Arr(_) => "object"
    case Obj(_) => "object"
  }

  /** The static-sync guard on one field: truthy and of type string. */
  predicate IsRequiredString(v: Value) {
    Truthy(v) && TypeOf(v) == "string"
  }

  /** The guard accepts exactly the non-empty strings: every number, boolean,
      null, object and the empty string is refused. */
  lemma RequiredStringIsNonEmptyString(v: Value)
    ensures IsRequiredString(v) <==> v.Str? && v.s != ""
  {
  }

  /** A parsed request body. A key that is absent reads as `undefined`, which
      is also what optional chaining yields on a missing body. */
  type Body = map<string, Value>

  function Field(body: Body, name: string): Value {
    if name in body then body[name] else Undefined
  }
}
