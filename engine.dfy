/** The `SchemaValidator` class: one instance per form, holding the schema,
    the inputs and the accumulated errors. Each method keeps the shape of
    the JavaScript method it models; the continuation that the source passes
    along is invoked at the very end of every method that receives one, so
    here it is the caller that invokes it, exactly when the method returns
    `Continued`. */
module Engine {
  import opened JsValues
  import opened Schema
  import opened Semantics

  /** Which of `validate`'s two callbacks fired, if any. */
  datatype Verdict = SuccessCalled | FailureCalled | NoCallback | Threw

  class SchemaValidator {
    var schema: seq<Rule>
    var inputs: Inputs
    var errors: seq<Value>

    /** The globals that `window[namespace][name]` looks validators up in. */
    const registry: Registry

    /** Every predicate call made so far, with its answer. */
    ghost var trace: seq<Event>

    /** `initialize(schema, inputs)`. MooTools gives every instance a fresh
        copy of the `errors: []` default. */
    constructor (schema: seq<Rule>, inputs: Inputs, registry: Registry)
      ensures this.schema == schema && this.inputs == inputs && this.registry == registry
      ensures errors == [] && trace == []
    {
      this.schema := schema;
      this.inputs := inputs;
      this.registry := registry;
      errors := [];
      trace := [];
    }

    /** `addError(rule)`: push the rule's error payload. */
    method AddError(rule: Rule)
      modifies this`errors
      ensures errors == old(errors) + [rule.error]
    {
      errors := errors + [rule.error];
    }

    /** `_failed(rule, callback)`: record the error iff `funnel === false`;
        `proceed` says whether `callback` is invoked, iff `failsafe === false`. */
    method Failed(rule: Rule) returns (proceed: bool)
      modifies this`errors
      ensures errors == old(errors) + Recorded(rule)
      ensures proceed <==> Proceeds(rule)
    {
      if rule.funnel == Some(false) {
        AddError(rule);
      }
      proceed := rule.failsafe == Some(false);
    }

    /** `_getParams(rule)`: a copy of `rule.params` with every template
        replaced by its input; `None` when a `null` or `undefined` parameter
        makes `param.match` throw. */
    method GetParams(rule: Rule) returns (params: Option<seq<Value>>)
      ensures params == BindParams(rule.params, inputs)
    {
      var clone := rule.params;
      var x := 0;
      while x < |clone|
        invariant 0 <= x <= |clone| == |rule.params|
        invariant forall i :: 0 <= i < x ==> !IsNullish(rule.params[i]) && clone[i] == Bind(rule.params[i], inputs)
        invariant clone[x..] == rule.params[x..]
      {
        var param := clone[x];
        assert param == rule.params[x];
        if IsNullish(param) {
          assert BindParams(rule.params, inputs).None? by {
            assert IsNullish(rule.params[x]);
          }
          return None;
        }
        if param.Str? {
          var name := PlaceholderName(param.s);
          if name.Some? {
            clone := clone[x := if name.value in inputs && inputs[name.value] != Undefined then inputs[name.value] else Null];
          }
        }
        x := x + 1;
      }
      var bound := BindParams(rule.params, inputs);
      assert bound.Some? && |bound.value| == |clone|;
      assert forall i :: 0 <= i < |clone| ==> bound.value[i] == clone[i];
      assert bound.value == clone;
      params := Some(clone);
    }

    /** `asynchronous(rule)`: whether the rule's validator is deferred;
        `None` when looking it up throws because it is not there. */
    function Asynchronous(rule: Rule): (deferred: Option<bool>) {
      if rule.validator in registry then Some(registry[rule.validator].deferred) else None
    }

    /** `check(rules, callback)`. */
    method Check(rules: seq<Rule>) returns (status: Status)
      modifies this`errors, this`trace
      ensures status == EvalList(rules, inputs, registry).status
      ensures errors == old(errors) + EvalList(rules, inputs, registry).errors
      ensures trace == old(trace) + EvalList(rules, inputs, registry).trace
      decreases rules
    {
      if rules == [] {
        status := Continued;
      } else {
        var rule, rest := rules[0], rules[1..];
        status := CheckRule(rule);
        if status == Continued {
          status := Check(rest);
        }
      }
    }

    /** `checkRule(rule, callback)`. */
    method CheckRule(rule: Rule) returns (status: Status)
      modifies this`errors, this`trace
      ensures status == EvalRule(rule, inputs, registry).status
      ensures errors == old(errors) + EvalRule(rule, inputs, registry).errors
      ensures trace == old(trace) + EvalRule(rule, inputs, registry).trace
      decreases rule, 1
    {
      var params := GetParams(rule);
      if params.None? {
        return Crashed;
      }
      var deferred := Asynchronous(rule);
      if deferred.None? {
        return Crashed;
      }
      var answer := registry[rule.validator].run(params.value);
      trace := trace + [Event(rule, answer)];
      if answer == Raises {
        return Crashed;
      }
      if answer == Yes {
        status := CheckSubRules(rule);
      } else {
        var proceed := Failed(rule);
        if !proceed {
          status := Halted;
        } else if deferred.value {
          status := CheckSubRules(rule);
        } else {
          status := Continued;
        }
      }
    }

    /** `fn`: `check(rule.rules, callback)`, which throws when `rules` is absent. */
    method CheckSubRules(rule: Rule) returns (status: Status)
      modifies this`errors, this`trace
      ensures status == EvalSubRules(rule, inputs, registry).status
      ensures errors == old(errors) + EvalSubRules(rule, inputs, registry).errors
      ensures trace == old(trace) + EvalSubRules(rule, inputs, registry).trace
      decreases rule, 0
    {
      match rule.rules
      case Absent =>
        status := Crashed;
      case Present(list) =>
        status := Check(list);
    }

    /** `getErrors()` */
    function GetErrors(): (r: seq<Value>)
      reads this
      ensures r == errors
    {
      errors
    }

    /** `validate(success, failure)`: check a copy of the schema; if the
        chain completes, call `success` iff no error was ever recorded on
        this instance. `errors` is not reset first. */
    method Validate() returns (verdict: Verdict)
      modifies this`errors, this`trace
      ensures errors == old(errors) + EvalList(schema, inputs, registry).errors
      ensures trace == old(trace) + EvalList(schema, inputs, registry).trace
      ensures verdict == SuccessCalled <==> EvalList(schema, inputs, registry).status == Continued && errors == []
      ensures verdict == FailureCalled <==> EvalList(schema, inputs, registry).status == Continued && errors != []
      ensures verdict == NoCallback <==> EvalList(schema, inputs, registry).status == Halted
      ensures verdict == Threw <==> EvalList(schema, inputs, registry).status == Crashed
    {
      var rules := schema;
      var status := Check(rules);
      if status == Continued {
        verdict := if |errors| == 0 then SuccessCalled else FailureCalled;
      } else if status == Halted {
        verdict := NoCallback;
      } else {
        verdict := Threw;
      }
    }
  }
}
