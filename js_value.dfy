/** The JavaScript values that `parseError` can be handed, and the few
    operators of the language it applies to them: truthiness, `||`, property
    reads, `typeof` and `toString`. */
module JsValue {
  import opened Wrappers

  /** A JavaScript value. A number is represented by its canonical decimal text
      (what `Number.prototype.toString` prints), so that truthiness and string
      conversion need no floating point. An object carries the `name` of its
      constructor, `None` when that constructor is `Object` itself, and its own
      properties. */
  datatype Value =
    | Undefined
    | Null
    | Bool(b: bool)
    | Num(text: string)
    | Str(s: string)
    | Obj(ctor: Option<string>, fields: map<string, Value>)

  /** JavaScript's ToBoolean: `undefined`, `null`, `false`, `0`, `NaN` and `""`
      are falsy (`-0` prints as "0"); every object is truthy. */
  predicate Truthy(v: Value) {
    match v
    case Undefined => false
    case Null => false
    case Bool(b) => b
    case Num(t) => t != "0" && t != "NaN"
    case Str(s) => s != ""
    case Obj(_, _) => true
  }

  /** `a || b`: the first operand when it is truthy, else the second. */
  function Or(a: Value, b: Value): (r: Value)
    ensures r == a || r == b
    ensures Truthy(r) <==> Truthy(a) || Truthy(b)
  {
    if Truthy(a) then a else b
  }

  /** `v[key]`: an object's own property, and `undefined` for a missing one or
      for a primitive. Reading a property of `undefined` or `null` throws in
      JavaScript; callers rule that case out or model the throw themselves. */
  function Get(v: Value, key: string): Value {
    if v.Obj? && key in v.fields then v.fields[key] else Undefined
  }

  /** What `typeof` answers. `null` is an "object", as in JavaScript. */
  function TypeOf(v: Value): (r: string)
    ensures r != ""
    ensures r == "object" <==> v.Obj? || v.Null?
  {
    match v
    case Undefined => "undefined"
    case Null => "object"
    case Bool(_) => "boolean"
    case Num(_) => "number"
    case Str(_) => "string"
    case Obj(_, _) => "object"
  }

  /** `typeof v === 'object'`, which holds of `null` too. */
  predicate IsTypeofObject(v: Value) {
    v.Obj? || v.Null?
  }

  /** `v.toString()` for a primitive other than `undefined` and `null`. */
  function PrimitiveToString(v: Value): string
    requires v.Bool? || v.Num? || v.Str?
  {
    match v
    case Bool(b) => if b then "true" else "false"
    case Num(t) => t
    case Str(s) => s
  }
}
