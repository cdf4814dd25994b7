# JS-JSON-Validation in Dafny

A model of the rule engine of JS-JSON-Validation (`SchemaValidator`) and of
the `StringValidator` predicates it ships with, with proofs of how the
engine orders, records and halts.

A schema is an ordered list of rule records. Each record names a predicate
as `[namespace, name]` and gives templated `params` such as `"{email}"`. It
may also give sub-rules `rules`, the flags `funnel` and `failsafe`, and an
`error` payload. `validate(success, failure)` walks a copy of the schema
in continuation-passing style:

- `check` shifts a rule off a queue.
- `checkRule` binds the rule's parameters to the inputs and calls the predicate.
- On a truthy answer it checks the sub-rules; on a falsy one it hands over to `_failed`.
- `_failed` pushes `error` iff `funnel === false`, and goes on iff `failsafe === false`.
- When the queue runs out, `success` is called if `errors` is empty, `failure` otherwise.

The model is organised in these modules:

- `JsValues` holds JavaScript values, strict equality, and the three outcomes of a call: truthy, falsy or a throw.
- `EmailSyntax` is the language of the `email` pattern, written as a recogniser.
- `StringValidator` holds the string predicates.
- `Schema` holds rule records, the predicate registry and `_getParams`' binding of templates.
- `Semantics` gives the meaning of one `check` as a function, `EvalList`, and proves the engine's properties about it. Every callback in the source is the last thing its caller does, so the chain of continuations collapses to a status:
  - `Continued`: the callback was invoked.
  - `Halted`: `_failed` dropped the callback.
  - `Crashed`: a TypeError was thrown.
  - A `Run` also carries the errors pushed and the predicate calls made.
- `Engine` holds the `SchemaValidator` class itself:
  - fields `schema`, `inputs` and `errors`;
  - a ghost `trace` of predicate calls;
  - methods shaped like the JavaScript ones, proved equal to `Semantics`.
- `Examples` holds `window.StringValidator` as a registry, the repository's example schemas, and client code.

Behaviour of the code as written, which the model reproduces:

- **Flags must be exactly `false` to count.** An absent `funnel` suppresses the error. An absent `failsafe` halts.
- **A halt stops everything.** It stops the remaining siblings, every enclosing list, and the final callback: neither `success` nor `failure` runs.
- **Absent sub-rules throw.** A rule that passes always checks `rule.rules`, so when `rules` is absent, `rules.shift()` throws.
- **A deferred failure descends.** A deferred (continuation-taking) predicate's failure continues with `fn`, which runs the failed rule's own sub-rules. A direct predicate's failure continues with the next sibling.
- **`errors` is never reset.**
- **None of the repository's example schemas ever calls `success` or `failure`**, whatever the inputs. None sets `funnel` or `failsafe` to `false`, and every leaf leaves `rules` out.

The comments on the repository's example schemas (`example/schemas.json.js`) describe behaviour that the code does not have. The model follows the code:

- `example/schemas.json.js:28` says that when the funnel rule fails, the form is still validated. The code halts there instead, because that rule leaves `failsafe` out. No error is recorded and neither callback runs (`Examples.FunnelOutcome`).
- `example/schemas.json.js:49-54` says a failsafe failure stops only the later rules of its own iteration. The code stops every rule after it, in every enclosing list, and the final callback too. The failsafe rule's call is the last call made (`Examples.FailsafeOutcome`, `Semantics.ListHaltIsFinal`).
- `example/schemas.json.js:79-81` says rules in a separate rule-chain are not affected by a failsafe rule that failed. When the inner failsafe rule of the nested schema fails, the outer sibling rule is never checked and validation halts (`Examples.NestedOutcome`, `Semantics.ListHaltIsFinal`).

## Model

| member | source | states |
|---|---|---|
| JsValues.StrictEquals | StringValidator.class.js:76 | definition (no ensures): `===` compares primitives by value; any two arrays or objects are unequal |
| EmailSyntax.IsEmail | StringValidator.class.js:31 | definition (no ensures): the recogniser of the `email` pattern, a local part of words joined by `.`, bar or `+`, then `@`, then the domain |
| JsValues.StrictEqualsIsIdentityOnPrimitives | StringValidator.class.js:76 | `===` holds only between equal values and between any equal primitives; it does not coerce `"1"` to `1` or `""` to `null` |
| EmailSyntax.EmailHasOneAt | StringValidator.class.js:31 | a matching string holds exactly one `@`, with a non-empty part before it and after it |
| EmailSyntax.EmailEndsInTopLevelLabel | StringValidator.class.js:31 | the text after the last `.` of a match is two to four ASCII letters |
| EmailSyntax.NoAtNoEmail | StringValidator.class.js:31 | a string without `@`, the empty string in particular, does not match |
| EmailSyntax.DomainPartShape | StringValidator.class.js:31 | the domain part has no `@`, and its last `.` starts the top-level label |
| EmailSyntax.EmailIgnoresCase | StringValidator.class.js:31 | under the `i` flag, ASCII lower-casing never changes whether a string matches |
| EmailSyntax.ToLowerIdempotent | StringValidator.class.js:31 | ASCII lower-casing, the normal form behind the `i` flag, is idempotent |
| StringValidator.Email | StringValidator.class.js:30-32 | definition (no ensures): truthy iff a string matches `IsEmail`; throws on a non-string |
| StringValidator.Empty | StringValidator.class.js:41-43 | definition (no ensures): `str === ''` |
| StringValidator.EmptyOrEmail | StringValidator.class.js:52-54 | definition (no ensures): `empty`, and `email` only when `empty` is false |
| StringValidator.EmptyOrUrl | StringValidator.class.js:63-65 | definition (no ensures): `empty` or `url` |
| StringValidator.Equals | StringValidator.class.js:75-77 | definition (no ensures): `str === value` |
| StringValidator.InList | StringValidator.class.js:87-89 | definition (no ensures): an `===` search of an array; throws when `list` is not an array |
| StringValidator.MaxLength | StringValidator.class.js:99-101 | definition (no ensures): throws on every call |
| StringValidator.NotEmpty | StringValidator.class.js:110-112 | definition (no ensures): `empty(str) === false` |
| StringValidator.Url | StringValidator.class.js:121-123 | definition (no ensures): accepts every value |
| StringValidator.EmailOnEmptyAndNonStrings | StringValidator.class.js:30-32 | `email("")` is false, and `email` throws on every non-string (`str.match` is missing) |
| StringValidator.EmptyMeansEmptyString | StringValidator.class.js:41-43 | `empty` holds iff the value is the empty string; not for `null`, `undefined`, `0` or `"0"` |
| StringValidator.EmptyOrEmailAccepts | StringValidator.class.js:52-54 | on strings `emptyOrEmail` holds iff the string is empty or an address, and never throws; `emptyOrEmail("")` holds; on non-strings it throws |
| StringValidator.UrlAcceptsAll | StringValidator.class.js:63-65 | `url`, and hence `emptyOrUrl`, accepts every value |
| StringValidator.EqualsIsStrict | StringValidator.class.js:75-77 | `equals` implies equality, is string equality on strings, and does not coerce |
| StringValidator.InListMembership | StringValidator.class.js:87-89 | a string is in an array iff it is one of its elements, and the call does not throw |
| StringValidator.MaxLengthAlwaysThrows | StringValidator.class.js:99-101 | `maxLength` throws on every call, because `str.length` is not a function |
| StringValidator.NotEmptyNegatesEmpty | StringValidator.class.js:110-112 | `notEmpty` is the negation of `empty`, so an unbound (`null`) parameter passes `notEmpty` |
| Schema.PlaceholderName | SchemaValidator.class.js:122 | a recognised template is `{` + a name of `[a-zA-Z0-9-._]+` + `}` |
| Schema.PlaceholderOfName | SchemaValidator.class.js:122 | every such name in braces is recognised as a template of exactly that name |
| Schema.InputValue | SchemaValidator.class.js:129-133 | an input never contributes `undefined`; an unbound one contributes `null` |
| Schema.Bind | SchemaValidator.class.js:122-134 | definition (no ensures): a string template becomes its input's value; every other parameter stays as it is |
| Schema.BindParams | SchemaValidator.class.js:107-139 | the binding succeeds iff no parameter is `null`/`undefined` (`param.match` throws on them); it has the length of `rule.params`; each element is the bound form of the parameter at that position |
| Schema.BindTemplate | SchemaValidator.class.js:128-133 | a template `{name}` becomes `inputs[name]`, or `null` when that is undefined |
| Schema.BindLiteral | SchemaValidator.class.js:122-134 | a parameter that is not a template passes through unchanged |
| Semantics.Recorded | SchemaValidator.class.js:79-83 | definition (no ensures): what `_failed` pushes, the rule's `error` iff `funnel === false` |
| Semantics.Proceeds | SchemaValidator.class.js:89-91 | definition (no ensures): `_failed` invokes its callback iff `failsafe === false` |
| Semantics.EvalList | SchemaValidator.class.js:180-200 | definition (no ensures): the reference meaning of `check`; an empty list continues, otherwise the first rule runs and the rest only if it continued |
| Semantics.EvalRule | SchemaValidator.class.js:218-250 | definition (no ensures): the reference meaning of `checkRule`: bind, look up, call, then sub-rules on a truthy answer or `_failed` on a falsy one |
| Semantics.EvalSubRules | SchemaValidator.class.js:226-228 | definition (no ensures): the reference meaning of `fn`; absent sub-rules throw |
| Semantics.AndThen | SchemaValidator.class.js:191 | definition (no ensures): the nesting `this.check.pass([rules, callback], this)`; the second run happens only if the first invoked its continuation, and errors and calls are concatenated |
| Semantics.AndThenAssociative | SchemaValidator.class.js:191 | nesting continuations is associative |
| Semantics.EvalListAppend | SchemaValidator.class.js:180-200 | checking `a + b` is checking `a`, then `b` only if `a` invoked its callback |
| Semantics.StoppedListIgnoresTheRest | SchemaValidator.class.js:191-194 | after a prefix halts or throws, no later rule runs or records anything |
| Semantics.DirectRuleInList | SchemaValidator.class.js:240-248 | for a direct predicate: a truthy answer runs the sub-rules to completion before the next sibling; a falsy one never runs them, records the error iff `funnel === false`, and continues with the next sibling iff `failsafe === false`, else halts with just that call |
| Semantics.DeferredFailureInList | SchemaValidator.class.js:231-233 | a deferred predicate's failure that goes on runs the failed rule's sub-rules; it throws when they are absent, and otherwise records the rule's error, then the sub-rules', then the siblings' |
| Semantics.HaltedListEndsInHaltingFailure | SchemaValidator.class.js:89-91 | a halted check ends with the falsy call whose `failsafe` is not `false` |
| Semantics.HaltedRuleEndsInHaltingFailure | SchemaValidator.class.js:218-250 | the same for one rule together with its sub-rules |
| Semantics.HaltedSubRulesEndInHaltingFailure | SchemaValidator.class.js:226-228 | the same for a rule's sub-rule list |
| Semantics.AndThenKeepsHaltFinal | SchemaValidator.class.js:191 | chaining keeps every halting failure the last call of a halted run |
| Semantics.ListHaltIsFinal | SchemaValidator.class.js:89-91 | once a falsy call's `failsafe` is not `false`, no predicate is called after it at any nesting level, and the check halts |
| Semantics.RuleHaltIsFinal | SchemaValidator.class.js:218-250 | the same for one rule together with its sub-rules |
| Semantics.SubRulesHaltIsFinal | SchemaValidator.class.js:226-228 | the same for a rule's sub-rule list |
| Semantics.ErrorsOfList | SchemaValidator.class.js:148-150 | the errors of a check are the `error`s of the falsy calls whose `funnel === false`, in call order |
| Semantics.ErrorsOfRule | SchemaValidator.class.js:79-83 | the same for one rule together with its sub-rules |
| Semantics.ErrorsOfSubRules | SchemaValidator.class.js:226-228 | the same for a rule's sub-rule list |
| Semantics.ListTraceFollowsSchema | SchemaValidator.class.js:180-200 | the predicates called follow the schema's document order, each rule at most once |
| Semantics.RuleTraceFollowsSchema | SchemaValidator.class.js:218-250 | the same for one rule: itself first, then its sub-rules in order |
| Semantics.EmbeddedRulesAreListed | SchemaValidator.class.js:180-200 | a trace that follows a list of rules calls only rules of that list |
| Semantics.SubRulesTraceFollowSchema | SchemaValidator.class.js:226-228 | the same for a rule's sub-rule list |
| Semantics.ListIgnoresDeferral | SchemaValidator.class.js:231-248 | deferred and direct versions of the same predicates give the same run, provided every rule that goes on after failing has empty sub-rules |
| Semantics.RuleIgnoresDeferral | SchemaValidator.class.js:231-248 | the same for one rule |
| Engine.SchemaValidator.constructor | SchemaValidator.class.js:59-62 | stores schema and inputs; `errors` starts empty |
| Engine.SchemaValidator.Failed | SchemaValidator.class.js:76-92 | pushes `Recorded(rule)`, the `error` iff `funnel === false`; invokes the callback iff `Proceeds(rule)`, that is `failsafe === false` |
| Engine.SchemaValidator.GetParams | SchemaValidator.class.js:107-139 | the element-by-element loop over the clone computes `BindParams`, and throws exactly where it does |
| Engine.SchemaValidator.AddError | SchemaValidator.class.js:148-150 | appends the rule's `error` to `errors` and changes nothing else |
| Engine.SchemaValidator.Asynchronous | SchemaValidator.class.js:163-167 | definition (no ensures): the validator's deferred flag; no value when the lookup throws |
| Engine.SchemaValidator.Check | SchemaValidator.class.js:180-200 | its status is `EvalList`'s, and it appends exactly that run's errors and calls to `errors` and `trace` |
| Engine.SchemaValidator.CheckRule | SchemaValidator.class.js:218-250 | the same against `EvalRule` |
| Engine.SchemaValidator.CheckSubRules | SchemaValidator.class.js:226-228 | the same against `EvalSubRules`; an absent list throws |
| Engine.SchemaValidator.GetErrors | SchemaValidator.class.js:258-260 | returns the accumulated `errors` |
| Engine.SchemaValidator.Validate | SchemaValidator.class.js:273-300 | appends the run's errors to the old `errors`, without resetting; `success` fires iff the chain completes with `errors` empty; `failure` iff it completes with errors; neither iff it halts; a throw iff it crashes |
| Examples.StringCall | SchemaValidator.class.js:240 | definition (no ensures): `StringValidator[name].apply(this, args)` for the nine members; any other name throws |
| Examples.StringRegistry | StringValidator.class.js:18-125 | the nine `StringValidator` members, all direct |
| Examples.SimpleOutcome | example/schemas.json.js:10-19 | `schemas.simple` records nothing; it halts iff `email` is bound to a non-address string and throws otherwise |
| Examples.FunnelOutcome | example/schemas.json.js:30-44 | `schemas.funnel` records nothing, halts on a string that is not an address and throws otherwise; on the empty string the only call made is its `notEmpty`, which fails |
| Examples.FailsafeOutcome | example/schemas.json.js:56-74 | `schemas.failsafe` records nothing, halts iff `email` is the empty string and otherwise throws; every call made is its first rule's, so its second rule never runs |
| Examples.NestedOutcome | example/schemas.json.js:83-119 | `schemas.nested` records nothing, halts on a string that is not an address and throws otherwise; its second top-level rule is never called, although it is in a separate rule-chain from the failsafe rule |
| Examples.FullOutcome | example/schemas.json.js:127-188 | `schemas.full` records nothing, halts iff `name` is the empty string and otherwise throws; every call made is its first rule's, so rules two to five never run |
| Examples.ExamplesNeverCallBack | example/schemas.json.js:10-188 | for every input, each example schema either halts without a callback or throws |
| Examples.ExplicitOutcome | SchemaValidator.class.js:76-92 | with every flag spelled out, an empty address records the first error and halts; any other string records the second error iff it is not an address |
| Examples.ValidateExplicit | SchemaValidator.class.js:273-300 | `validate` on that schema: no callback on `""`, `success` on an address, `failure` otherwise, with the matching errors |
| Examples.ExplicitScenario | SchemaValidator.class.js:290-299 | `""` gives no callback with `[Required]`; `"not-an-email"` gives `failure` with `[Invalid]`; `"a@b.com"` gives `success` |
| Examples.SimpleAddress | StringValidator.class.js:31 | `a@b.com` matches the pattern |
| Examples.BarSeparatesLocalWords | StringValidator.class.js:31 | the bar inside the separator class is a literal character, so `a`, bar, `b@example.org` is an address |
| Examples.KelvinSign | StringValidator.class.js:31 | `a@b.Kom` spelled with KELVIN SIGN does not match, while its JavaScript lower case `a@b.kom` does |
| Examples.DeferralMatters | SchemaValidator.class.js:232 | the same refusing predicate records `[parent]` when direct and `[parent, child]` when deferred |
| Examples.EmptySchemaSucceeds | SchemaValidator.class.js:290-299 | an empty schema on a fresh validator calls `success` with no errors |
| Examples.ValidateTwice | SchemaValidator.class.js:279 | a second `validate` on one instance leaves the schema alone and pushes the same errors again; `success` repeats iff the first run succeeded; `failure` stays `failure` |
| Examples.HaltedErrorsPersist | SchemaValidator.class.js:291 | errors recorded by a run, even a halted one, make every later completed run on the instance call `failure` |
| Examples.Session | SchemaValidator.class.js:273-300 | a fresh validator over `StringValidator` halts or throws exactly when the reference semantics does |

## Left out

- MooTools plumbing is not modelled: the dependency checks, `Class`, and `.pass`/`.bind`. The closures they build are the continuations of the model.
- `asynchronous` guesses from a function's source text whether it takes `success, failure`. The model cannot read source text, so each registry entry carries that answer as a `deferred` flag.
- `window[namespace][name]` lookup is replaced by an explicit registry. A validator missing from it throws, as the lookup does.
- Ajax transport and timing are left out. A deferred predicate is modelled as calling exactly one of its continuations once, at once. A predicate that never calls back, or calls back twice, is not modelled.
- The `_rules` field is not kept. It only holds the clone that `validate` hands to `check`, and the model passes that queue as a value. MooTools' `Array.clone` copies deeply, so the schema stays untouched.
- NumberValidator is not part of this model. It relies on MooTools `toInt` and loose numeric comparison.
- Schema.BindParams: a rule without `params` is not modelled; `params` is always a list.
- Schema.BindParams: an object parameter with a truthy `match` property passes through unchanged. The source calls that property, which throws, since no JSON value is callable. An object whose `match` is falsy passes through in the source too.
- Semantics.EvalList: rules arrays are taken to hold rule records only. A falsy entry, which ends the list's `check` early, is not modelled.
- StringValidator.InList: a `list` that is a string is answered as a throw. MooTools' `String.contains` would search it as a substring.
- JsValues.StrictEquals: answers false for any two arrays or objects. Two references to the same input object would be `===`.
- Engine.SchemaValidator.GetErrors: returns a copy of `errors`, where `getErrors` hands out the live array (SchemaValidator.class.js:259): a caller holding it sees later pushes and can change the validator's errors through it. Likewise `initialize` keeps the caller's own `schema` and `inputs` objects (SchemaValidator.class.js:60-61). Changes a caller makes through such a shared object are modelled only as assignments to the `errors`, `schema` and `inputs` fields, so in `Examples.ValidateTwice` the two results are two values where JavaScript would give one array.
- Schema.InputValue: input names are looked up as own properties only. A name such as `constructor`, inherited from `Object.prototype`, would bind to a function in the source.
- Examples.StringRegistry: holds only the nine members the singleton defines. A name such as `toString` or `hasOwnProperty` would be found on `Object.prototype` by `window.StringValidator[name]` and called, where the model has no entry and throws.
- Rule flags that are neither booleans nor absent, such as `funnel: 0`, are not modelled. They behave like an absent flag, since only `=== false` counts.
- EmailSyntax.EmailIgnoresCase: states case-blindness for ASCII lower-casing only. Full JavaScript lower-casing breaks it (`Examples.KelvinSign`).
- Validator predicates are called with `this` bound to the validator (`.apply(this, params)` at SchemaValidator.class.js:233 and :240), so a registered predicate could read `this.inputs`, push to `this.errors` or call `this.addError`. A `Schema.Capability` sees only its parameters and has no effects. `Semantics.ErrorsOfList` and `Semantics.ListHaltIsFinal` depend on that.
- JavaScript `NaN` is not modelled: `Num` holds a real, and every real is `===` to itself. `NaN === NaN` is false, so `equals` and `inList` would reject a `NaN` that the model accepts.
