/** The slice of JavaScript semantics the tool handler relies on:
    truthiness, property reads that may throw, and `String(x)`. */
module JsRuntime {
  import opened Wrappers
  import opened JsonValue

  /** A JavaScript value reachable from a JSON response. `NativeFunction`
      is a built-in method inherited from a prototype. */
  datatype JsVal = Undefined | Val(j: Json) | NativeFunction(fname: string)

  /** A value whose properties can be read: reading a property of
      `undefined` or `null` throws a TypeError. */
  predicate Readable(v: JsVal) {
    v != Undefined && v != Val(JNull)
  }

  /** The falsy values of section 7.1.2 (ToBoolean) of ECMA-262 that a JSON
      response can hold (numbers are integers here, so no NaN or `-0`) */
  const FalsyValues: set<JsVal> :=
    {Undefined, Val(JNull), Val(JBool(false)), Val(JNum(0)), Val(JStr(""))}

  /** JavaScript truthiness: a value is falsy exactly when it is one of the
      `FalsyValues`. Every truthy value can be read from, and every object
      and array is truthy, however empty. */
  predicate Truthy(v: JsVal)
    ensures !Truthy(v) <==> v in FalsyValues
    ensures Truthy(v) ==> Readable(v)
    ensures v.Val? && (v.j.JObj? || v.j.JArr?) ==> Truthy(v)
    ensures v.Val? && v.j.JStr? ==> (Truthy(v) <==> |v.j.s| > 0)
  {
    match v
    case Undefined => false
    case NativeFunction(_) => true
    case Val(j) =>
      match j
      case JNull => false
      case JBool(b) => b
      case JNum(n) => n != 0
      case JStr(s) => s != ""
      case JArr(_) => true
      case JObj(_) => true
  }

  /** Source text V8 gives for a built-in function under `String(f)` */
  function NativeSource(fname: string): string {
    "function " + fname + "() { [native code] }"
  }

  /** `v[key]`: `None` when the read throws. An object yields its own member
      or `undefined`. Of the names the handler reads, the only inherited one
      is `link`, which `String.prototype` provides to every string; a
      built-in function has its own `name`. */
  function Get(v: JsVal, key: string): (r: Option<JsVal>)
    ensures r.None? <==> !Readable(v)
    ensures v.Val? && v.j.JObj? && key !in Keys(v.j.fields) ==> r == Some(Undefined)
    ensures v.Val? && v.j.JObj? && key in Keys(v.j.fields) ==>
      r.value.Val? &&
      exists i :: 0 <= i < |v.j.fields| && v.j.fields[i] == (key, r.value.j) &&
        forall k :: 0 <= k < i ==> v.j.fields[k].0 != key
    ensures v.Val? && !v.j.JObj? && r.Some? ==> !r.value.Val?
  {
    match v
    case Undefined => None
    case NativeFunction(n) => Some(if key == "name" then Val(JStr(n)) else Undefined)
    case Val(j) =>
      match j
      case JNull => None
      case JObj(fields) =>
        (match Lookup(fields, key)
         case Some(x) => Some(Val(x))
         case None => Some(Undefined))
      case JStr(_) => Some(if key == "link" then NativeFunction("link") else Undefined)
      case _ => Some(Undefined)
  }

  /** `String(v)`. A string converts to itself; how other JSON values
      print is supplied by `toStr`. */
  function Stringify(v: JsVal, toStr: Json -> string): (s: string)
    ensures v.Val? && v.j.JStr? ==> s == v.j.s
    ensures v.NativeFunction? ==> s == NativeSource(v.fname)
  {
    match v
    case Undefined => "undefined"
    case NativeFunction(n) => NativeSource(n)
    case Val(j) => if j.JStr? then j.s else toStr(j)
  }
}
