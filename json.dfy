/**
 * Loosely shaped JavaScript values as they arrive from the content API or
 * from an HTTP request body, with the property access, nullish coalescing
 * and truthiness rules the TypeScript source relies on.
 */
module Json {
  import opened Wrappers

  /** A JSON value. Numbers are integers in this model. */
  datatype Value =
    | Null
    | Bool(b: bool)
    | Num(n: int)
    | Str(s: string)
    | Arr(items: seq<Value>)
    | Obj(fields: map<string, Value>)

  /** `v.key` on a value that is not null: a property only objects carry; `None` is `undefined`. */
  function Get(v: Value, key: string): (r: Option<Value>)
    ensures r.Some? <==> v.Obj? && key in v.fields
    ensures r.Some? ==> r.value == v.fields[key]
  {
    if v.Obj? && key in v.fields then Some(v.fields[key]) else None
  }

  /** `v?.key`: optional chaining on a value that may be `undefined` or `null`. */
  function GetOpt(v: Option<Value>, key: string): (r: Option<Value>)
    ensures r.Some? ==> v.Some? && v.value.Obj?
  {
    if v.Some? then Get(v.value, key) else None
  }

  /** `undefined` or `null` */
  predicate IsNullish(v: Option<Value>) {
    v.None? || v.value.Null?
  }

  /** `a ?? b` */
  function Coalesce(a: Option<Value>, b: Option<Value>): (r: Option<Value>)
    ensures !IsNullish(a) ==> r == a
    ensures IsNullish(a) ==> r == b
  {
    if IsNullish(a) then b else a
  }

  /** JavaScript truthiness (`!!v`); integers only, so there is no NaN. */
  predicate Truthy(v: Option<Value>) {
    match v
    case None => false
    case Some(Null) => false
    case Some(Bool(b)) => b
    case Some(Num(n)) => n != 0
    case Some(Str(s)) => s != ""
    case Some(Arr(_)) => true
    case Some(Obj(_)) => true
  }

  /** `typeof v === 'object' && v !== null`: arrays and objects. */
  predicate IsObject(v: Value) {
    v.Arr? || v.Obj?
  }

  /** Follows a path of property names from `v`, as a chain of `?.` accesses. */
  function Lookup(v: Value, path: seq<string>): Option<Value>
    decreases |path|
  {
    if path == [] then Some(v)
    else match Get(v, path[0])
      case None => None
      case Some(w) => Lookup(w, path[1..])
  }
}
