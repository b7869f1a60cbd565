/** The JavaScript values that reach the device object: what `JSON.parse` can
    produce, and the few operations the handlers apply to them (property access
    `v[k]`, truthiness, and the loose comparison `v == undefined`). A JavaScript
    `undefined` is `None` of an `Option<Value>`. */
module JsValue {
  import opened Wrappers

  /** A parsed JSON value. Numbers are carried as reals; nothing in the model
      does arithmetic on them. */
  datatype Value =
    | Null
    | Bool(b: bool)
    | Num(x: real)
    | Str(s: string)
    | Arr(items: seq<Value>)
    | Obj(fields: map<string, Value>)

  /** A property key: a named field `v['H']` or the first element `v[0]`. */
  datatype Key = Field(name: string) | First

  /** The error JavaScript raises when a property of `undefined` or `null` is read. */
  const TypeError := "TypeError"

  /** `v[k]` in JavaScript: reading a property of `undefined` or `null` throws;
      an absent property reads as `undefined`. Inherited properties (such as an
      array's `length`) are not part of the model. */
  function Member(v: Option<Value>, k: Key): (r: Result<Option<Value>, string>)
    ensures r.Failure? <==> (v == None || v == Some(Null))
    ensures r.Failure? ==> r.error == TypeError
    ensures k.Field? && r.Success? && !v.value.Obj? ==> r.value == None
  {
    match v
    case None => Failure(TypeError)
    case Some(Null) => Failure(TypeError)
    case Some(Obj(m)) =>
      var name := if k.Field? then k.name else "0";
      Success(if name in m then Some(m[name]) else None)
    case Some(Arr(items)) =>
      Success(if k.First? && |items| > 0 then Some(items[0]) else None)
    case Some(Str(s)) =>
      Success(if k.First? && |s| > 0 then Some(Str([s[0]])) else None)
    case Some(_) => Success(None)
  }

  /** `v[k1][k2]...` evaluated left to right; the first access that throws ends it. */
  function Path(v: Option<Value>, keys: seq<Key>): (r: Result<Option<Value>, string>)
    ensures keys == [] ==> r == Success(v)
    ensures keys != [] && (v == None || v == Some(Null)) ==> r == Failure(TypeError)
    decreases |keys|
  {
    if keys == [] then Success(v)
    else
      var next :- Member(v, keys[0]);
      Path(next, keys[1..])
  }

  /** JavaScript truthiness of a defined value (`NaN` is not modelled). */
  predicate Truthy(v: Value) {
    match v
    case Null => false
    case Bool(b) => b
    case Num(x) => x != 0.0
    case Str(s) => s != ""
    case _ => true
  }

  /** The negation of `v == undefined` under loose equality: `null` compares
      equal to `undefined` as well. */
  predicate Known(v: Option<Value>) {
    v.Some? && v.value != Null
  }
}
