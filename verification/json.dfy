/** The JavaScript values the model needs: integers stand for numbers
    (floating point is not modelled) and `undefined` is the absence of a
    value (`Wrappers.None`). An object keeps its keys in insertion order,
    which is what `JSON.stringify` observes, beside the map from key to value
    that property access reads. */
module Json {
  import opened Wrappers

  datatype Value =
    | Null
    | Bool(b: bool)
    | Num(n: int)
    | Str(s: string)
    | Arr(items: seq<Value>)
    | Obj(obj: Object)

  datatype Object = Object(keys: seq<string>, props: map<string, Value>)

  /** Each key listed once, and exactly the keys that have a value. */
  ghost predicate WellFormed(o: Object) {
    && (forall k :: k in o.props <==> k in o.keys)
    && (forall i, j :: 0 <= i < j < |o.keys| ==> o.keys[i] != o.keys[j])
  }

  /** JavaScript truthiness: `null`, `false`, `0` and `""` are falsy. */
  predicate Truthy(v: Value) {
    match v
    case Null => false
    case Bool(b) => b
    case Num(n) => n != 0
    case Str(s) => s != ""
    case Arr(_) => true
    case Obj(_) => true
  }

  /** Truthiness of a possibly `undefined` value. */
  predicate TruthyOpt(v: Option<Value>) {
    v.Some? && Truthy(v.value)
  }

  /** Truthiness of a possibly `undefined` string. */
  predicate TruthyStr(v: Option<string>) {
    v.Some? && v.value != ""
  }

  /** Property access `o[key]`: `undefined` when the key is absent. */
  function Get(o: Object, key: string): (r: Option<Value>)
    ensures r.Some? <==> key in o.props
    ensures r.Some? ==> r.value == o.props[key]
  {
    if key in o.props then Some(o.props[key]) else None
  }
}
