/** The data the `SchemaValidator` works on: rule records, the registry of
    predicates they name, and the binding of templated parameters to inputs
    (`_getParams`). */
module Schema {
  import opened JsValues

  /** `rule.validator`: the pair `[namespace, name]` looked up as
      `window[namespace][name]`. */
  datatype Validator = Validator(namespace: string, name: string)

  /** `rule.rules`, which a rule may leave out. */
  datatype SubRules = Absent | Present(list: seq<Rule>)

  /** One rule record of a schema. `funnel` and `failsafe` are `None` when
      the record leaves them out; `error` is `Undefined` when it does. */
  datatype Rule = Rule(
    validator: Validator,
    params: seq<Value>,
    rules: SubRules,
    funnel: Option<bool>,
    failsafe: Option<bool>,
    error: Value)

  /** A predicate as the engine sees it. `deferred` is what `asynchronous`
      reports for it (the source guesses it from the function's text). A
      deferred predicate calls exactly one of the two continuations it is
      given, which `run` reports as `Yes` or `No`; a direct one returns a
      truthy or falsy value. Either may throw instead. */
  datatype Capability = Capability(deferred: bool, run: seq<Value> -> Answer)

  /** The globals validators are looked up in. */
  type Registry = map<Validator, Capability>

  /** The inputs object: a property that is absent or `undefined` is unbound. */
  type Inputs = map<string, Value>

  // ---------------------------------------------------------------------
  // Templated parameters: /^{([a-zA-Z0-9-\._]+)}$/

  predicate IsNameChar(c: char) {
    'a' <= c <= 'z' || 'A' <= c <= 'Z' || '0' <= c <= '9' || c == '-' || c == '.' || c == '_'
  }

  predicate IsName(n: string) {
    |n| > 0 && forall i :: 0 <= i < |n| ==> IsNameChar(n[i])
  }

  /** The input name a parameter string refers to, if it is a template. */
  function PlaceholderName(s: string): (r: Option<string>)
    ensures r.Some? ==> IsName(r.value) && s == "{" + r.value + "}"
  {
    if 3 <= |s| && s[0] == '{' && s[|s| - 1] == '}' && IsName(s[1..|s| - 1])
    then Some(s[1..|s| - 1])
    else None
  }

  /** Every name wrapped in braces is recognised as a template of that name. */
  lemma PlaceholderOfName(n: string)
    requires IsName(n)
    ensures PlaceholderName("{" + n + "}") == Some(n)
  {
    var s := "{" + n + "}";
    assert s[1..|s| - 1] == n;
  }

  /** The value an input contributes: `inputs[name]`, or `null` when that is `undefined`. */
  function InputValue(inputs: Inputs, name: string): (v: Value)
    ensures v != Undefined
  {
    if name in inputs && inputs[name] != Undefined then inputs[name] else Null
  }

  /** What one parameter becomes. Only strings have a `match` method, so only
      a string can be a template. */
  function Bind(param: Value, inputs: Inputs): (v: Value) {
    match param
    case Str(s) => (
      match PlaceholderName(s)
      case Some(name) => InputValue(inputs, name)
      case None => param)
    case _ => param
  }

  /** The parameters a predicate is called with, or `None` when `_getParams`
      throws: `param.match` of a `null` or `undefined` parameter is a TypeError. */
  function BindParams(params: seq<Value>, inputs: Inputs): (r: Option<seq<Value>>)
    ensures r.Some? <==> forall i :: 0 <= i < |params| ==> !IsNullish(params[i])
    ensures r.Some? ==> |r.value| == |params|
    ensures r.Some? ==> forall i :: 0 <= i < |params| ==> r.value[i] == Bind(params[i], inputs)
  {
    if params == [] then Some([])
    else if IsNullish(params[0]) then None
    else
      match BindParams(params[1..], inputs)
      case None => None
      case Some(rest) => Some([Bind(params[0], inputs)] + rest)
  }

  /** A template `{name}` becomes the bound input, or `null` when unbound. */
  lemma BindTemplate(name: string, inputs: Inputs)
    requires IsName(name)
    ensures Bind(Str("{" + name + "}"), inputs)
         == if name in inputs && inputs[name] != Undefined then inputs[name] else Null
  {
    PlaceholderOfName(name);
  }

  /** Every parameter that is not a template passes through unchanged. */
  lemma BindLiteral(param: Value, inputs: Inputs)
    requires forall name :: IsName(name) ==> param != Str("{" + name + "}")
    ensures Bind(param, inputs) == param
  {
    if param.Str? {
      match PlaceholderName(param.s)
      case Some(name) => assert false;
      case None =>
    }
  }
}
