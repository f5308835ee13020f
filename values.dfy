/** JavaScript values as they appear in the global object graph that the
    namespace registry reads and writes. Functions are objects too, so a
    function can carry own properties (static members of a class). */
module JsValues {

  /** Whether an object is a plain object or a callable (a function or class). */
  datatype Kind = PlainObject | FunctionObject(fid: nat)

  /** A JavaScript value: objects with their own enumerable properties, and primitives.
      Numbers are modelled as integers. */
  datatype Value =
    | Obj(kind: Kind, props: map<string, Value>)
    | Undefined
    | Null
    | Bool(b: bool)
    | Num(n: int)
    | Str(s: string)

  /** The fresh empty container `{}`. */
  function EmptyObject(): Value
  {
    Obj(PlainObject, map[])
  }

  /** JavaScript truthiness (`if (v)`). */
  predicate Truthy(v: Value)
  {
    match v
    case Obj(_, _) => true
    case Undefined => false
    case Null => false
    case Bool(b) => b
    case Num(n) => n != 0
    case Str(s) => s != ""
  }

  /** Reading a property of `undefined` or `null` throws a TypeError. */
  predicate IsNullish(v: Value)
  {
    v.Undefined? || v.Null?
  }

  /** `v[key]` for a value that is not nullish: an own property of an object,
      `undefined` otherwise. */
  function Member(v: Value, key: string): Value
  {
    if v.Obj? && key in v.props then v.props[key] else Undefined
  }

  /** The own enumerable properties a `for (k in v) if (v.hasOwnProperty(k))` loop visits. */
  function OwnProps(v: Value): map<string, Value>
  {
    if v.Obj? then v.props else map[]
  }
}
