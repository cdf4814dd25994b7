/** The JavaScript values that flow through the validator: schema parameters,
    the inputs object, error payloads, and what a predicate call produces. */
module JsValues {

  datatype Option<+T> = None | Some(value: T)

  /** A JSON-like JavaScript value. `Undefined` stands for a missing property.
      Numbers are reals: nothing in the validator does arithmetic on them.
      There is no `NaN`, so every number is `===` to itself. */
  datatype Value =
    | Undefined
    | Null
    | Bool(b: bool)
    | Num(n: real)
    | Str(s: string)
    | Arr(items: seq<Value>)
    | Obj(props: map<string, Value>)

  /** The two values without properties: reading `.match` of them throws. */
  predicate IsNullish(v: Value) {
    v.Undefined? || v.Null?
  }

  /** What calling a predicate produces: a truthy result, a falsy result, or
      an exception (a TypeError, in every case the model meets). */
  datatype Answer = Yes | No | Raises

  /** The answer of a predicate that returns the boolean `b`. */
  function AnswerOf(b: bool): (a: Answer) {
    if b then Yes else No
  }

  /** JavaScript's `===`. Arrays and objects compare by identity; every array
      or object a predicate sees is taken to be a distinct object, so two of
      them are never strictly equal. */
  function StrictEquals(a: Value, b: Value): (same: bool) {
    match (a, b)
    case (Undefined, Undefined) => true
    case (Null, Null) => true
    case (Bool(x), Bool(y)) => x == y
    case (Num(x), Num(y)) => x == y
    case (Str(x), Str(y)) => x == y
    case _ => false
  }

  /** `===` never coerces: it holds only between equal values, and it holds
      between any two equal primitive values. */
  lemma StrictEqualsIsIdentityOnPrimitives(a: Value, b: Value)
    ensures StrictEquals(a, b) ==> a == b
    ensures a == b && !a.Arr? && !a.Obj? ==> StrictEquals(a, b)
    ensures !StrictEquals(Str("1"), Num(1.0)) && !StrictEquals(Str(""), Null)
  {
  }

  /** The `i`-th argument a function receives when called with `args`:
      missing arguments are `undefined`. */
  function Arg(args: seq<Value>, i: nat): (v: Value) {
    if i < |args| then args[i] else Undefined
  }
}
