/** The JavaScript values a request body or a class-transformer instance can
    carry, as far as the validators and the truthiness tests of the handlers
    look at them. */
module JsValues {
  datatype Value =
    | Undefined
    | Null
    | Bool(b: bool)
    | Str(s: string)
    | Num(n: real)
    | NaN
    | Infinity(negative: bool)
    | Arr(elems: seq<Value>)
    | Obj(fields: map<string, Value>)

  /** JavaScript truthiness: `undefined`, `null`, `false`, `""`, `0` and `NaN`
      are falsy, everything else is truthy. */
  predicate Truthy(v: Value)
  {
    match v
    case Undefined => false
    case Null => false
    case Bool(b) => b
    case Str(s) => s != ""
    case Num(n) => n != 0.0
    case NaN => false
    case Infinity(_) => true
    case Arr(_) => true
    case Obj(_) => true
  }

  /** Property access `obj.key`: a missing key, or a non-object, reads as `undefined`. */
  function Get(obj: Value, key: string): (v: Value)
    ensures obj.Obj? && key in obj.fields ==> v == obj.fields[key]
    ensures !(obj.Obj? && key in obj.fields) ==> v == Undefined
  {
    if obj.Obj? && key in obj.fields then obj.fields[key] else Undefined
  }
}
