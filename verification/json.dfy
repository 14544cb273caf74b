/** Parsed JSON values as JavaScript code sees them after `JSON.parse`,
    with `undefined` for a missing property, plus the two JavaScript rules
    the app relies on: truthiness and property reads. */
module Json {
  import opened Wrappers

  datatype Json =
    | Undefined
    | Null
    | Bool(b: bool)
    | Num(n: real)
    | Str(s: string)
    | Arr(items: seq<Json>)
    | Obj(fields: map<string, Json>)

  /** What `JSON.parse` made of a text: a value, or a thrown `SyntaxError`. */
  datatype ParseOutcome = Parsed(value: Json) | SyntaxError

  /** A string read from device storage, with what `JSON.parse` makes of it. */
  datatype Stored = Stored(text: string, parsed: ParseOutcome)

  /** A `TypeError` thrown by reading a property of `null` or `undefined`. */
  datatype TypeError = CannotReadProperty(key: string)

  predicate IsNullish(v: Json) {
    v.Undefined? || v.Null?
  }

  /** JavaScript truthiness (`Boolean(v)`, `if (v)`, `!v`). */
  function Truthy(v: Json): (r: bool)
    ensures !r <==> v == Undefined || v == Null || v == Bool(false) || v == Num(0.0) || v == Str("")
  {
    match v
    case Undefined => false
    case Null => false
    case Bool(b) => b
    case Num(n) => n != 0.0
    case Str(s) => s != ""
    case Arr(_) => true
    case Obj(_) => true
  }

  /** `v[key]` on a value that is not nullish: the own property of an
      object, `undefined` for a missing key and for every non-object. */
  function Prop(v: Json, key: string): (r: Json)
    requires !IsNullish(v)
    ensures v.Obj? && key in v.fields ==> r == v.fields[key]
    ensures !(v.Obj? && key in v.fields) ==> r == Undefined
  {
    if v.Obj? && key in v.fields then v.fields[key] else Undefined
  }

  /** `v[key]` on any value: reading from `null` or `undefined` throws. */
  function Get(v: Json, key: string): (r: Result<Json, TypeError>)
    ensures r.Failure? <==> IsNullish(v)
    ensures r.Failure? ==> r.error == CannotReadProperty(key)
    ensures r.Success? ==> r.value == Prop(v, key)
  {
    if IsNullish(v) then Failure(CannotReadProperty(key)) else Success(Prop(v, key))
  }
}
