/** What one `check` of a rule list does, as a function of the rules, the
    inputs and the registry.

    In `SchemaValidator` every callback is invoked as the last thing its
    caller does, so the continuation chain collapses to a status: a list
    evaluation either ends by invoking its callback (`Continued`), ends
    without invoking it because `_failed` dropped it (`Halted`), or throws
    (`Crashed`). A `Run` also carries the errors pushed meanwhile and the
    predicate calls made, in order. */
module Semantics {
  import opened JsValues
  import opened Schema

  datatype Status = Continued | Halted | Crashed

  /** One call of a rule's predicate and its answer. */
  datatype Event = Event(rule: Rule, answer: Answer)

  datatype Run = Run(status: Status, errors: seq<Value>, trace: seq<Event>)

  /** `first`, then `next` only if `first` invoked its continuation. */
  function AndThen(first: Run, next: Run): (run: Run) {
    if first.status == Continued
    then Run(next.status, first.errors + next.errors, first.trace + next.trace)
    else first
  }

  /** What `_failed` pushes on `errors`: the error iff `funnel === false`. */
  function Recorded(rule: Rule): (errors: seq<Value>) {
    if rule.funnel == Some(false) then [rule.error] else []
  }

  /** Whether `_failed` invokes its callback: iff `failsafe === false`. */
  predicate Proceeds(rule: Rule) {
    rule.failsafe == Some(false)
  }

  /** `check(rules, callback)`: shift a rule, check it with "check the rest"
      as its continuation; an empty list invokes the callback at once. */
  function EvalList(rules: seq<Rule>, inputs: Inputs, registry: Registry): (run: Run)
    decreases rules
  {
    if rules == [] then Run(Continued, [], [])
    else AndThen(EvalRule(rules[0], inputs, registry), EvalList(rules[1..], inputs, registry))
  }

  /** `fn`, i.e. `check(rule.rules, callback)`: an absent list makes `shift` throw. */
  function EvalSubRules(rule: Rule, inputs: Inputs, registry: Registry): (run: Run)
    decreases rule, 0
  {
    match rule.rules
    case Absent => Run(Crashed, [], [])
    case Present(list) => EvalList(list, inputs, registry)
  }

  /** `checkRule(rule, callback)`. */
  function EvalRule(rule: Rule, inputs: Inputs, registry: Registry): (run: Run)
    decreases rule, 1
  {
    match BindParams(rule.params, inputs)
    case None => Run(Crashed, [], [])
    case Some(params) =>
      if rule.validator !in registry then Run(Crashed, [], [])
      else
        var capability := registry[rule.validator];
        var answer := capability.run(params);
        var called := [Event(rule, answer)];
        match answer
        case Raises => Run(Crashed, [], called)
        case Yes => AndThen(Run(Continued, [], called), EvalSubRules(rule, inputs, registry))
        case No =>
          var failed := Run(if Proceeds(rule) then Continued else Halted, Recorded(rule), called);
          // a deferred predicate's failure continuation is `_failed` with `fn`
          if capability.deferred then AndThen(failed, EvalSubRules(rule, inputs, registry)) else failed
  }

  /** The rule's predicate is reached and gives `answer`. */
  predicate Answers(rule: Rule, inputs: Inputs, registry: Registry, answer: Answer) {
    && BindParams(rule.params, inputs).Some?
    && rule.validator in registry
    && registry[rule.validator].run(BindParams(rule.params, inputs).value) == answer
  }

  // ---------------------------------------------------------------------
  // Sequencing

  lemma AndThenAssociative(a: Run, b: Run, c: Run)
    ensures AndThen(a, AndThen(b, c)) == AndThen(AndThen(a, b), c)
  {
  }

  /** Checking `a + b` is checking `a`, and then `b` only if `a` invoked
      its callback: a list that halts or throws evaluates nothing after. */
  lemma {:induction false} EvalListAppend(a: seq<Rule>, b: seq<Rule>, inputs: Inputs, registry: Registry)
    ensures EvalList(a + b, inputs, registry) == AndThen(EvalList(a, inputs, registry), EvalList(b, inputs, registry))
  {
    if a == [] {
      assert a + b == b;
    } else {
      assert (a + b)[0] == a[0] && (a + b)[1..] == a[1..] + b;
      EvalListAppend(a[1..], b, inputs, registry);
      AndThenAssociative(EvalRule(a[0], inputs, registry), EvalList(a[1..], inputs, registry), EvalList(b, inputs, registry));
    }
  }

  /** Once a prefix of a list halts or throws, the rules after it never run
      and contribute no error. */
  lemma StoppedListIgnoresTheRest(a: seq<Rule>, b: seq<Rule>, inputs: Inputs, registry: Registry)
    requires EvalList(a, inputs, registry).status != Continued
    ensures EvalList(a + b, inputs, registry) == EvalList(a, inputs, registry)
  {
    EvalListAppend(a, b, inputs, registry);
  }

  // ---------------------------------------------------------------------
  // How one rule continues

  /** A direct predicate: on a truthy answer the sub-rules run to completion
      before the next sibling; on a falsy one `_failed` records the error iff
      `funnel === false`, never runs the sub-rules, and goes on to the next
      sibling iff `failsafe === false`. */
  lemma DirectRuleInList(rule: Rule, rest: seq<Rule>, inputs: Inputs, registry: Registry)
    requires rule.validator in registry && !registry[rule.validator].deferred
    ensures Answers(rule, inputs, registry, Yes) && rule.rules.Present?
            && EvalList(rule.rules.list, inputs, registry).status == Continued
        ==> EvalList([rule] + rest, inputs, registry)
            == Run(EvalList(rest, inputs, registry).status,
                   EvalList(rule.rules.list, inputs, registry).errors + EvalList(rest, inputs, registry).errors,
                   [Event(rule, Yes)] + EvalList(rule.rules.list, inputs, registry).trace + EvalList(rest, inputs, registry).trace)
    ensures Answers(rule, inputs, registry, No) && Proceeds(rule)
        ==> EvalList([rule] + rest, inputs, registry)
            == Run(EvalList(rest, inputs, registry).status,
                   Recorded(rule) + EvalList(rest, inputs, registry).errors,
                   [Event(rule, No)] + EvalList(rest, inputs, registry).trace)
    ensures Answers(rule, inputs, registry, No) && !Proceeds(rule)
        ==> EvalList([rule] + rest, inputs, registry) == Run(Halted, Recorded(rule), [Event(rule, No)])
  {
    assert ([rule] + rest)[0] == rule && ([rule] + rest)[1..] == rest;
    var whole := EvalList([rule] + rest, inputs, registry);
    var first := EvalRule(rule, inputs, registry);
    var next := EvalList(rest, inputs, registry);
    assert whole == AndThen(first, next);
    if Answers(rule, inputs, registry, Yes) && rule.rules.Present? {
      var sub := EvalList(rule.rules.list, inputs, registry);
      assert EvalSubRules(rule, inputs, registry) == sub;
      assert first == AndThen(Run(Continued, [], [Event(rule, Yes)]), sub);
      assert [] + sub.errors == sub.errors;
    }
  }

  /** A deferred predicate whose failure goes on (`failsafe === false`)
      continues with `fn`: the failed rule's own sub-rules run, then the
      next sibling. */
  lemma DeferredFailureInList(rule: Rule, rest: seq<Rule>, inputs: Inputs, registry: Registry)
    requires rule.validator in registry && registry[rule.validator].deferred
    requires Answers(rule, inputs, registry, No) && Proceeds(rule)
    ensures rule.rules.Absent? ==> EvalList([rule] + rest, inputs, registry) == Run(Crashed, Recorded(rule), [Event(rule, No)])
    ensures rule.rules.Present? && EvalList(rule.rules.list, inputs, registry).status == Continued
        ==> EvalList([rule] + rest, inputs, registry)
            == Run(EvalList(rest, inputs, registry).status,
                   Recorded(rule) + EvalList(rule.rules.list, inputs, registry).errors + EvalList(rest, inputs, registry).errors,
                   [Event(rule, No)] + EvalList(rule.rules.list, inputs, registry).trace + EvalList(rest, inputs, registry).trace)
  {
    assert ([rule] + rest)[0] == rule && ([rule] + rest)[1..] == rest;
    var first := EvalRule(rule, inputs, registry);
    var failed := Run(Continued, Recorded(rule), [Event(rule, No)]);
    assert EvalList([rule] + rest, inputs, registry) == AndThen(first, EvalList(rest, inputs, registry));
    assert first == AndThen(failed, EvalSubRules(rule, inputs, registry));
    if rule.rules.Absent? {
      assert Recorded(rule) + [] == Recorded(rule) && [Event(rule, No)] + [] == [Event(rule, No)];
    } else {
      assert EvalSubRules(rule, inputs, registry) == EvalList(rule.rules.list, inputs, registry);
    }
  }

  // ---------------------------------------------------------------------
  // Halting is global

  /** The last predicate called in a run. */
  function LastEvent(run: Run): (e: Event)
    requires run.trace != []
  {
    run.trace[|run.trace| - 1]
  }

  /** A halted run ends with the failure that halted it: a rule whose
      predicate answered falsy and whose `failsafe` is not exactly `false`.
      Nothing runs after it at any nesting level: the halt propagates through
      every enclosing list to the top. */
  lemma {:induction false} HaltedListEndsInHaltingFailure(rules: seq<Rule>, inputs: Inputs, registry: Registry)
    requires EvalList(rules, inputs, registry).status == Halted
    ensures EvalList(rules, inputs, registry).trace != []
    ensures LastEvent(EvalList(rules, inputs, registry)).answer == No
    ensures !Proceeds(LastEvent(EvalList(rules, inputs, registry)).rule)
    decreases rules
  {
    var first := EvalRule(rules[0], inputs, registry);
    if first.status == Continued {
      HaltedListEndsInHaltingFailure(rules[1..], inputs, registry);
    } else {
      HaltedRuleEndsInHaltingFailure(rules[0], inputs, registry);
    }
  }

  lemma {:induction false} HaltedRuleEndsInHaltingFailure(rule: Rule, inputs: Inputs, registry: Registry)
    requires EvalRule(rule, inputs, registry).status == Halted
    ensures EvalRule(rule, inputs, registry).trace != []
    ensures LastEvent(EvalRule(rule, inputs, registry)).answer == No
    ensures !Proceeds(LastEvent(EvalRule(rule, inputs, registry)).rule)
    decreases rule, 1
  {
    var answer := registry[rule.validator].run(BindParams(rule.params, inputs).value);
    var sub := EvalSubRules(rule, inputs, registry);
    if answer == Yes || (answer == No && Proceeds(rule)) {
      HaltedSubRulesEndInHaltingFailure(rule, inputs, registry);
    }
  }

  lemma {:induction false} HaltedSubRulesEndInHaltingFailure(rule: Rule, inputs: Inputs, registry: Registry)
    requires EvalSubRules(rule, inputs, registry).status == Halted
    ensures EvalSubRules(rule, inputs, registry).trace != []
    ensures LastEvent(EvalSubRules(rule, inputs, registry)).answer == No
    ensures !Proceeds(LastEvent(EvalSubRules(rule, inputs, registry)).rule)
    decreases rule, 0
  {
    HaltedListEndsInHaltingFailure(rule.rules.list, inputs, registry);
  }

  /** A call whose failure drops the callback. */
  predicate Halts(e: Event) {
    e.answer == No && !Proceeds(e.rule)
  }

  /** Every halting failure of a run is its last call, and the run halted. */
  predicate HaltIsFinal(run: Run) {
    forall i :: 0 <= i < |run.trace| && Halts(run.trace[i]) ==> i == |run.trace| - 1 && run.status == Halted
  }

  lemma AndThenKeepsHaltFinal(a: Run, b: Run)
    requires HaltIsFinal(a) && HaltIsFinal(b)
    ensures HaltIsFinal(AndThen(a, b))
  {
    if a.status == Continued {
      var t := a.trace + b.trace;
      forall i | 0 <= i < |t| && Halts(t[i])
        ensures i == |t| - 1 && b.status == Halted
      {
        if i >= |a.trace| {
          assert t[i] == b.trace[i - |a.trace|];
        }
      }
    }
  }

  /** Conversely, once a failure drops its callback no further predicate is
      called, at any nesting level, and the whole check halts. */
  lemma {:induction false} ListHaltIsFinal(rules: seq<Rule>, inputs: Inputs, registry: Registry)
    ensures HaltIsFinal(EvalList(rules, inputs, registry))
    decreases rules
  {
    if rules != [] {
      RuleHaltIsFinal(rules[0], inputs, registry);
      ListHaltIsFinal(rules[1..], inputs, registry);
      AndThenKeepsHaltFinal(EvalRule(rules[0], inputs, registry), EvalList(rules[1..], inputs, registry));
    }
  }

  lemma {:induction false} RuleHaltIsFinal(rule: Rule, inputs: Inputs, registry: Registry)
    ensures HaltIsFinal(EvalRule(rule, inputs, registry))
    decreases rule, 1
  {
    if BindParams(rule.params, inputs).Some? && rule.validator in registry {
      var answer := registry[rule.validator].run(BindParams(rule.params, inputs).value);
      var called := [Event(rule, answer)];
      SubRulesHaltIsFinal(rule, inputs, registry);
      var sub := EvalSubRules(rule, inputs, registry);
      if answer == Yes {
        AndThenKeepsHaltFinal(Run(Continued, [], called), sub);
      } else if answer == No {
        AndThenKeepsHaltFinal(Run(if Proceeds(rule) then Continued else Halted, Recorded(rule), called), sub);
      }
    }
  }

  lemma {:induction false} SubRulesHaltIsFinal(rule: Rule, inputs: Inputs, registry: Registry)
    ensures HaltIsFinal(EvalSubRules(rule, inputs, registry))
    decreases rule, 0
  {
    if rule.rules.Present? {
      ListHaltIsFinal(rule.rules.list, inputs, registry);
    }
  }

  // ---------------------------------------------------------------------
  // Errors are the recorded failures, in discovery order

  /** The errors `_failed` pushes for the falsy answers of a trace. */
  function RecordedBy(trace: seq<Event>): (errors: seq<Value>) {
    if trace == [] then []
    else (if trace[0].answer == No then Recorded(trace[0].rule) else []) + RecordedBy(trace[1..])
  }

  lemma {:induction false} RecordedByAppend(a: seq<Event>, b: seq<Event>)
    ensures RecordedBy(a + b) == RecordedBy(a) + RecordedBy(b)
  {
    if a == [] {
      assert a + b == b;
    } else {
      assert (a + b)[0] == a[0] && (a + b)[1..] == a[1..] + b;
      RecordedByAppend(a[1..], b);
    }
  }

  lemma RecordedByAndThen(a: Run, b: Run)
    requires a.errors == RecordedBy(a.trace) && b.errors == RecordedBy(b.trace)
    ensures AndThen(a, b).errors == RecordedBy(AndThen(a, b).trace)
  {
    RecordedByAppend(a.trace, b.trace);
  }

  /** The errors of a check are exactly the `error`s of the rules whose
      predicate answered falsy and whose `funnel` is exactly `false`, in the
      order their predicates were called. */
  lemma {:induction false} ErrorsOfList(rules: seq<Rule>, inputs: Inputs, registry: Registry)
    ensures EvalList(rules, inputs, registry).errors == RecordedBy(EvalList(rules, inputs, registry).trace)
    decreases rules
  {
    if rules != [] {
      ErrorsOfRule(rules[0], inputs, registry);
      ErrorsOfList(rules[1..], inputs, registry);
      RecordedByAndThen(EvalRule(rules[0], inputs, registry), EvalList(rules[1..], inputs, registry));
    }
  }

  lemma {:induction false} ErrorsOfRule(rule: Rule, inputs: Inputs, registry: Registry)
    ensures EvalRule(rule, inputs, registry).errors == RecordedBy(EvalRule(rule, inputs, registry).trace)
    decreases rule, 1
  {
    if BindParams(rule.params, inputs).Some? && rule.validator in registry {
      var answer := registry[rule.validator].run(BindParams(rule.params, inputs).value);
      var called := [Event(rule, answer)];
      assert RecordedBy(called) == if answer == No then Recorded(rule) else [];
      ErrorsOfSubRules(rule, inputs, registry);
      var sub := EvalSubRules(rule, inputs, registry);
      if answer == Yes {
        RecordedByAndThen(Run(Continued, [], called), sub);
      } else if answer == No {
        RecordedByAndThen(Run(if Proceeds(rule) then Continued else Halted, Recorded(rule), called), sub);
      }
    }
  }

  lemma {:induction false} ErrorsOfSubRules(rule: Rule, inputs: Inputs, registry: Registry)
    ensures EvalSubRules(rule, inputs, registry).errors == RecordedBy(EvalSubRules(rule, inputs, registry).trace)
    decreases rule, 0
  {
    if rule.rules.Present? {
      ErrorsOfList(rule.rules.list, inputs, registry);
    }
  }

  // ---------------------------------------------------------------------
  // Order: predicates run in schema order, each rule at most once

  /** The rules of a list in document order (each rule, then its sub-rules). */
  function PreorderList(rules: seq<Rule>): (order: seq<Rule>)
    decreases rules
  {
    if rules == [] then [] else PreorderRule(rules[0]) + PreorderList(rules[1..])
  }

  function PreorderRule(rule: Rule): (order: seq<Rule>)
    decreases rule
  {
    [rule] + match rule.rules
             case Absent => []
             case Present(list) => PreorderList(list)
  }

  /** The rules of `trace` occur in `rules` in the same order, each at a
      position of its own. */
  predicate Embeds(trace: seq<Event>, rules: seq<Rule>)
    decreases |rules|
  {
    if trace == [] then true
    else if rules == [] then false
    else (trace[0].rule == rules[0] && Embeds(trace[1..], rules[1..])) || Embeds(trace, rules[1..])
  }

  lemma {:induction false} EmbedsConcat(a: seq<Event>, b: seq<Rule>, c: seq<Event>, d: seq<Rule>)
    requires Embeds(a, b) && Embeds(c, d)
    ensures Embeds(a + c, b + d)
    decreases |b|
  {
    if b == [] {
      assert a == [] && a + c == c && b + d == d;
    } else {
      assert (b + d)[0] == b[0] && (b + d)[1..] == b[1..] + d;
      if a != [] && a[0].rule == b[0] && Embeds(a[1..], b[1..]) {
        EmbedsConcat(a[1..], b[1..], c, d);
        assert (a + c)[0] == a[0] && (a + c)[1..] == a[1..] + c;
      } else {
        EmbedsConcat(a, b[1..], c, d);
      }
    }
  }

  /** An embedded trace only calls rules of the schema. */
  lemma {:induction false} EmbeddedRulesAreListed(trace: seq<Event>, rules: seq<Rule>)
    requires Embeds(trace, rules)
    ensures forall e :: e in trace ==> e.rule in rules
    decreases |rules|
  {
    if trace != [] {
      if trace[0].rule == rules[0] && Embeds(trace[1..], rules[1..]) {
        EmbeddedRulesAreListed(trace[1..], rules[1..]);
        assert trace == [trace[0]] + trace[1..];
      } else {
        EmbeddedRulesAreListed(trace, rules[1..]);
      }
    }
  }

  /** The predicates a check calls follow the schema's document order, and
      no rule's predicate is called twice. */
  lemma {:induction false} ListTraceFollowsSchema(rules: seq<Rule>, inputs: Inputs, registry: Registry)
    ensures Embeds(EvalList(rules, inputs, registry).trace, PreorderList(rules))
    decreases rules
  {
    if rules != [] {
      RuleTraceFollowsSchema(rules[0], inputs, registry);
      ListTraceFollowsSchema(rules[1..], inputs, registry);
      var first := EvalRule(rules[0], inputs, registry);
      var rest := EvalList(rules[1..], inputs, registry);
      if first.status == Continued {
        EmbedsConcat(first.trace, PreorderRule(rules[0]), rest.trace, PreorderList(rules[1..]));
      } else {
        EmbedsConcat(first.trace, PreorderRule(rules[0]), [], PreorderList(rules[1..]));
        assert first.trace + [] == first.trace;
      }
    }
  }

  lemma {:induction false} RuleTraceFollowsSchema(rule: Rule, inputs: Inputs, registry: Registry)
    ensures Embeds(EvalRule(rule, inputs, registry).trace, PreorderRule(rule))
    decreases rule, 1
  {
    var below := match rule.rules case Absent => [] case Present(list) => PreorderList(list);
    assert PreorderRule(rule) == [rule] + below;
    SubRulesTraceFollowSchema(rule, inputs, registry);
    var sub := EvalSubRules(rule, inputs, registry).trace;
    var run := EvalRule(rule, inputs, registry);
    if run.trace != [] {
      var e := run.trace[0];
      assert e.rule == rule;
      assert run.trace == [e] || run.trace == [e] + sub;
      EmbedsConcat([e], [rule], [], below);
      EmbedsConcat([e], [rule], sub, below);
      assert [e] + [] == [e];
    }
  }

  lemma {:induction false} SubRulesTraceFollowSchema(rule: Rule, inputs: Inputs, registry: Registry)
    ensures Embeds(EvalSubRules(rule, inputs, registry).trace,
                   match rule.rules case Absent => [] case Present(list) => PreorderList(list))
    decreases rule, 0
  {
    if rule.rules.Present? {
      ListTraceFollowsSchema(rule.rules.list, inputs, registry);
    }
  }

  // ---------------------------------------------------------------------
  // Deferred and direct predicates

  /** Two registries with the same predicates, deferred or not. */
  ghost predicate SamePredicates(direct: Registry, deferred: Registry) {
    && direct.Keys == deferred.Keys
    && forall v :: v in direct ==> direct[v].run == deferred[v].run
  }

  /** Every rule whose failure goes on (`failsafe === false`) has an empty
      sub-rule list. */
  predicate ProceedingRulesAreLeaves(rules: seq<Rule>)
    decreases rules
  {
    forall i :: 0 <= i < |rules| ==> ProceedingRuleIsLeaf(rules[i])
  }

  predicate ProceedingRuleIsLeaf(rule: Rule)
    decreases rule
  {
    && (Proceeds(rule) ==> rule.rules == Present([]))
    && (rule.rules.Present? ==> ProceedingRulesAreLeaves(rule.rules.list))
  }

  /** Whether a predicate is deferred changes nothing, provided no rule that
      goes on after a failure has sub-rules of its own. */
  lemma {:induction false} ListIgnoresDeferral(rules: seq<Rule>, inputs: Inputs, direct: Registry, deferred: Registry)
    requires SamePredicates(direct, deferred) && ProceedingRulesAreLeaves(rules)
    ensures EvalList(rules, inputs, direct) == EvalList(rules, inputs, deferred)
    decreases rules
  {
    if rules != [] {
      RuleIgnoresDeferral(rules[0], inputs, direct, deferred);
      ListIgnoresDeferral(rules[1..], inputs, direct, deferred);
    }
  }

  lemma {:induction false} RuleIgnoresDeferral(rule: Rule, inputs: Inputs, direct: Registry, deferred: Registry)
    requires SamePredicates(direct, deferred) && ProceedingRuleIsLeaf(rule)
    ensures EvalRule(rule, inputs, direct) == EvalRule(rule, inputs, deferred)
    decreases rule, 1
  {
    if rule.rules.Present? {
      ListIgnoresDeferral(rule.rules.list, inputs, direct, deferred);
    }
    if Proceeds(rule) {
      assert EvalSubRules(rule, inputs, direct) == Run(Continued, [], []);
    }
  }
}
