/** The JavaScript values a selector parameter reads from its options and
    writes to the wire, with the parts of JavaScript semantics the parameter
    relies on: truthiness, property reads and array-like iteration. */
module JsValues {
  import opened Wrappers

  /** A JavaScript value as far as the selector parameter can observe it.
      Numbers are integers; `Obj` holds an object's own properties. */
  datatype Json =
    | Undefined
    | Null
    | Bool(b: bool)
    | Num(n: int)
    | Str(s: string)
    | Arr(elems: seq<Json>)
    | Obj(fields: map<string, Json>)

  /** The error JavaScript throws when a property of `null`/`undefined` is read. */
  datatype JsError = TypeError(property: string, receiver: Json)

  predicate Nullish(v: Json) {
    v.Undefined? || v.Null?
  }

  /** What `if (v)` decides. */
  predicate Truthy(v: Json)
    ensures Nullish(v) ==> !Truthy(v)
    ensures v.Arr? || v.Obj? ==> Truthy(v)
  {
    match v
    case Undefined => false
    case Null => false
    case Bool(b) => b
    case Num(n) => n != 0
    case Str(s) => s != []
    case Arr(_) => true
    case Obj(_) => true
  }

  /** `v.hasOwnProperty(key)` for a key other than an array index or `length`. */
  predicate HasOwn(v: Json, key: string) {
    v.Obj? && key in v.fields
  }

  /** `v[key]` for a non-nullish `v` and a key other than an array index or
      `length`: an own property of an object, `undefined` otherwise. */
  function Get(v: Json, key: string): (r: Json)
    requires !Nullish(v)
    ensures HasOwn(v, key) ==> r == v.fields[key]
    ensures !HasOwn(v, key) ==> r == Undefined
  {
    match v
    case Obj(fields) => if key in fields then fields[key] else Undefined
    case _ => Undefined
  }

  /** The values `v[0], ..., v[v.length - 1]` that a counted loop
      `for (i = 0; i < v.length; ++i)` visits: the elements of an array, the
      one-character strings of a string, and nothing for a value whose
      `length` reads `undefined`. Reading `length` of `null`/`undefined` throws. */
  function ArrayLikeEntries(v: Json): (r: Result<seq<Json>, JsError>)
    ensures r.Failure? <==> Nullish(v)
    ensures v.Arr? ==> r == Success(v.elems)
    ensures v.Str? ==> r.Success? && |r.value| == |v.s|
    ensures v.Str? ==> forall i :: 0 <= i < |v.s| ==> r.value[i] == Str([v.s[i]])
    ensures v.Bool? || v.Num? || v.Obj? ==> r == Success([])
  {
    match v
    case Undefined => Failure(TypeError("length", v))
    case Null => Failure(TypeError("length", v))
    case Arr(elems) => Success(elems)
    case Str(s) => Success(seq(|s|, i requires 0 <= i < |s| => Str([s[i]])))
    case _ => Success([])
  }
}
