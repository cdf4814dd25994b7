/** `window.StringValidator` as a registry, the example schemas of the
    repository, and what the engine does with them. */
module Examples {
  import opened JsValues
  import opened EmailSyntax
  import StringValidator
  import opened Schema
  import opened Semantics
  import opened Engine

  /** The members of the `StringValidator` singleton. */
  const StringNames: set<string> :=
    {"email", "empty", "emptyOrEmail", "emptyOrUrl", "equals", "inList", "maxLength", "notEmpty", "url"}

  /** `StringValidator[name].apply(this, args)`; a name the singleton does
      not have is no function, and calling it throws. */
  function StringCall(name: string, args: seq<Value>): (a: Answer) {
    var str := Arg(args, 0);
    if name == "email" then StringValidator.Email(str)
    else if name == "empty" then AnswerOf(StringValidator.Empty(str))
    else if name == "emptyOrEmail" then StringValidator.EmptyOrEmail(str)
    else if name == "emptyOrUrl" then AnswerOf(StringValidator.EmptyOrUrl(str))
    else if name == "equals" then AnswerOf(StringValidator.Equals(str, Arg(args, 1)))
    else if name == "inList" then StringValidator.InList(str, Arg(args, 1))
    else if name == "maxLength" then StringValidator.MaxLength(str, Arg(args, 1))
    else if name == "notEmpty" then AnswerOf(StringValidator.NotEmpty(str))
    else if name == "url" then AnswerOf(StringValidator.Url(str))
    else Raises
  }

  /** `window.StringValidator`. No member's text contains `success, failure`,
      so every one of them is direct. */
  function StringRegistry(): (r: Registry)
    ensures forall v :: v in r <==> v.namespace == "StringValidator" && v.name in StringNames
    ensures forall v :: v in r ==> !r[v].deferred
  {
    map name | name in StringNames :: Validator("StringValidator", name) := Capability(false, args => StringCall(name, args))
  }

  /** `["StringValidator", name]` */
  function Member(name: string): (v: Validator) {
    Validator("StringValidator", name)
  }

  /** An `error` payload `{input, message}`. */
  function ErrorOf(input: string, message: string): (error: Value) {
    Obj(map["input" := Str(input), "message" := Str(message)])
  }

  // ---------------------------------------------------------------------
  // The example schemas, transcribed. None sets `funnel` or `failsafe` to
  // `false`, and every leaf leaves `rules` out.

  const Simple: seq<Rule> := [
    Rule(Member("email"), [Str("{email}")], Absent, None, None, ErrorOf("email", "Please enter your email."))
  ]

  const Funnel: seq<Rule> := [
    Rule(Member("notEmpty"), [Str("{email}")],
      Present([Rule(Member("email"), [Str("{email}")], Absent, None, None, ErrorOf("email", "Please enter your email."))]),
      Some(true), None, Undefined)
  ]

  const Failsafe: seq<Rule> := [
    Rule(Member("notEmpty"), [Str("{email}")], Absent, None, Some(true), ErrorOf("email", "Please enter your email.")),
    Rule(Member("email"), [Str("{email}")], Absent, None, None, ErrorOf("email", "Please enter a valid email address."))
  ]

  const Nested: seq<Rule> := [NestedEmpty, NestedGmail]

  const NestedEmpty := Rule(Member("notEmpty"), [Str("{email}")], Present([NestedEmail, NestedFacebook]),
    None, None, ErrorOf("email", "Please enter your email."))
  const NestedEmail := Rule(Member("email"), [Str("{email}")], Absent, None, Some(true),
    ErrorOf("email", "Please enter a valid email address."))
  const NestedFacebook := Rule(Member("equals"), [Str("{email}"), Str("oliver.nassar@facebook.com")], Absent, None, None,
    ErrorOf("email", "Please enter the email address: oliver.nassar@facebook.com"))
  const NestedGmail := Rule(Member("equals"), [Str("{email}"), Str("onassar@gmail.com")], Absent, None, None,
    ErrorOf("email", "Please enter the email address: onassar@gmail.com"))

  const Full: seq<Rule> := [FullName, FullEmail, FullWebsite, FullComment, FullUpdates]

  const FullName := Rule(Member("notEmpty"), [Str("{name}")], Absent, None, Some(true), ErrorOf("name", "Please enter your name."))
  const FullEmail := Rule(Member("emptyOrEmail"), [Str("{email}")], Absent, None, None, ErrorOf("email", "Please enter a valid email address."))
  const FullWebsite := Rule(Member("emptyOrUrl"), [Str("{website}")], Absent, None, None, ErrorOf("website", "Please enter a valid website url."))
  const FullComment := Rule(Member("notEmpty"), [Str("{comment}")],
    Present([Rule(Member("maxLength"), [Str("{comment}"), Num(250.0)], Absent, None, None,
      ErrorOf("comment", "Comments need to be limited to 250 characters."))]),
    None, None, ErrorOf("comment", "Please enter a comment."))
  const FullUpdates := Rule(Member("equals"), [Str("{updates}"), Str("true")],
    Present([Rule(Member("email"), [Str("{email}")], Absent, None, None,
      ErrorOf("email", "Email must be provided if you wish to receive email updates."))]),
    Some(true), None, Undefined)

  /** A one-template parameter list binds to the named input. */
  lemma BindInput(name: string, inputs: Inputs)
    requires IsName(name)
    ensures BindParams([Str("{" + name + "}")], inputs) == Some([InputValue(inputs, name)])
  {
    var ps := [Str("{" + name + "}")];
    assert ps[1..] == [] && BindParams(ps[1..], inputs) == Some([]);
    BindTemplate(name, inputs);
    assert Bind(ps[0], inputs) == InputValue(inputs, name);
    assert [Bind(ps[0], inputs)] + [] == [InputValue(inputs, name)];
  }

  /** The `StringValidator` member `name` answers `StringCall(name, args)`. */
  lemma CallString(name: string, args: seq<Value>)
    requires name in StringNames
    ensures Member(name) in StringRegistry() && !StringRegistry()[Member(name)].deferred
    ensures StringRegistry()[Member(name)].run(args) == StringCall(name, args)
  {
  }

  /** `schemas.simple` never calls back: an address reaches the absent
      sub-rules and throws, anything else that is a string halts (the
      missing `failsafe` is not `false`), a missing input throws in `email`. */
  lemma SimpleOutcome(inputs: Inputs)
    ensures EvalList(Simple, inputs, StringRegistry()).errors == []
    ensures EvalList(Simple, inputs, StringRegistry()).status
         == var v := InputValue(inputs, "email"); if v.Str? && !IsEmail(v.s) then Halted else Crashed
  {
    var v := InputValue(inputs, "email");
    BindInput("email", inputs);
    assert "{" + "email" + "}" == "{email}";
    CallString("email", [v]);
    var r := Simple[0];
    assert Simple[1..] == [];
    assert EvalList(Simple, inputs, StringRegistry()) == AndThen(EvalRule(r, inputs, StringRegistry()), Run(Continued, [], []));
  }

  /** `schemas.funnel` does what `schemas.simple` does: the empty string
      fails `notEmpty` and, `failsafe` being absent, halts; any other value
      reaches the inner `email` rule, which is `schemas.simple` itself. */
  lemma FunnelOutcome(inputs: Inputs)
    ensures EvalList(Funnel, inputs, StringRegistry()).errors == []
    ensures EvalList(Funnel, inputs, StringRegistry()).status
         == var v := InputValue(inputs, "email"); if v.Str? && !IsEmail(v.s) then Halted else Crashed
    ensures InputValue(inputs, "email") == Str("") ==> EvalList(Funnel, inputs, StringRegistry()).trace == [Event(Funnel[0], No)]
  {
    var v := InputValue(inputs, "email");
    BindInput("email", inputs);
    assert "{" + "email" + "}" == "{email}";
    CallString("notEmpty", [v]);
    var r := Funnel[0];
    assert r.rules.list == Simple;
    SimpleOutcome(inputs);
    NoAtNoEmail("");
    assert Funnel[1..] == [];
    assert EvalList(Funnel, inputs, StringRegistry()) == AndThen(EvalRule(r, inputs, StringRegistry()), Run(Continued, [], []));
  }

  /** `schemas.failsafe` halts on the empty string and otherwise throws in
      the absent sub-rules of its first rule; the second rule is never reached. */
  lemma FailsafeOutcome(inputs: Inputs)
    ensures EvalList(Failsafe, inputs, StringRegistry()).errors == []
    ensures EvalList(Failsafe, inputs, StringRegistry()).status
         == if InputValue(inputs, "email") == Str("") then Halted else Crashed
    ensures forall e :: e in EvalList(Failsafe, inputs, StringRegistry()).trace ==> e.rule == Failsafe[0]
  {
    var v := InputValue(inputs, "email");
    BindInput("email", inputs);
    assert "{" + "email" + "}" == "{email}";
    CallString("notEmpty", [v]);
    var r := Failsafe[0];
    var first := EvalRule(r, inputs, StringRegistry());
    assert first.status != Continued && first.errors == [];
    HeadStops(Failsafe, inputs, StringRegistry());
  }

  /** `schemas.nested` behaves as `schemas.simple` too: its inner `email`
      rule halts on a non-address (its `failsafe: true` only adds to what an
      absent flag already does) and throws on an address. */
  lemma NestedOutcome(inputs: Inputs)
    ensures EvalList(Nested, inputs, StringRegistry()).errors == []
    ensures EvalList(Nested, inputs, StringRegistry()).status
         == var v := InputValue(inputs, "email"); if v.Str? && !IsEmail(v.s) then Halted else Crashed
    ensures forall e :: e in EvalList(Nested, inputs, StringRegistry()).trace ==> e.rule != NestedGmail
  {
    NestedHeadStops(inputs);
    HeadStops(Nested, inputs, StringRegistry());
    HeadOnlyCalled(Nested, inputs, StringRegistry());
    var below := [NestedEmail, NestedFacebook];
    assert PreorderList(below[1..]) == [NestedFacebook] + PreorderList([]);
    assert PreorderList(below) == [NestedEmail] + PreorderList(below[1..]);
    assert PreorderRule(NestedEmpty) == [NestedEmpty, NestedEmail, NestedFacebook];
  }

  /** The first rule of `schemas.nested` alone already halts or throws. */
  lemma NestedHeadStops(inputs: Inputs)
    ensures EvalRule(NestedEmpty, inputs, StringRegistry()).errors == []
    ensures EvalRule(NestedEmpty, inputs, StringRegistry()).status
         == var v := InputValue(inputs, "email"); if v.Str? && !IsEmail(v.s) then Halted else Crashed
  {
    var v := InputValue(inputs, "email");
    var R := StringRegistry();
    BindInput("email", inputs);
    assert "{" + "email" + "}" == "{email}";
    CallString("notEmpty", [v]);
    CallString("email", [v]);
    NoAtNoEmail("");
    var inner := NestedEmpty.rules.list;
    var e := EvalRule(inner[0], inputs, R);
    assert e.status != Continued && e.errors == [];
    assert EvalList(inner, inputs, R) == AndThen(e, EvalList(inner[1..], inputs, R));
  }

  /** `schemas.full` halts when `name` is the empty string and otherwise
      throws in the absent sub-rules of its first rule: the other four rules
      are never reached. */
  lemma FullOutcome(inputs: Inputs)
    ensures EvalList(Full, inputs, StringRegistry()).errors == []
    ensures EvalList(Full, inputs, StringRegistry()).status
         == if InputValue(inputs, "name") == Str("") then Halted else Crashed
    ensures forall e :: e in EvalList(Full, inputs, StringRegistry()).trace ==> e.rule == FullName
  {
    var v := InputValue(inputs, "name");
    BindInput("name", inputs);
    assert "{" + "name" + "}" == "{name}";
    CallString("notEmpty", [v]);
    var first := EvalRule(FullName, inputs, StringRegistry());
    assert first.status != Continued && first.errors == [];
    HeadStops(Full, inputs, StringRegistry());
  }

  /** A list whose first rule halts or throws is that rule. */
  lemma HeadStops(rules: seq<Rule>, inputs: Inputs, registry: Registry)
    requires rules != [] && EvalRule(rules[0], inputs, registry).status != Continued
    ensures EvalList(rules, inputs, registry) == EvalRule(rules[0], inputs, registry)
  {
  }

  /** ... and calls only rules of its first rule's subtree. */
  lemma HeadOnlyCalled(rules: seq<Rule>, inputs: Inputs, registry: Registry)
    requires rules != [] && EvalRule(rules[0], inputs, registry).status != Continued
    ensures forall e :: e in EvalList(rules, inputs, registry).trace ==> e.rule in PreorderRule(rules[0])
  {
    HeadStops(rules, inputs, registry);
    RuleTraceFollowsSchema(rules[0], inputs, registry);
    EmbeddedRulesAreListed(EvalRule(rules[0], inputs, registry).trace, PreorderRule(rules[0]));
  }

  // ---------------------------------------------------------------------
  // A schema that spells every flag out

  const Required := ErrorOf("email", "Please enter your email.")
  const Invalid := ErrorOf("email", "Please enter a valid email address.")

  /** "Required, then a valid address": the first rule halts on failure,
      the second goes on; both record their error and have empty sub-rules. */
  const Explicit: seq<Rule> := [
    Rule(Member("notEmpty"), [Str("{email}")], Present([]), Some(false), Some(true), Required),
    Rule(Member("email"), [Str("{email}")], Present([]), Some(false), Some(false), Invalid)
  ]

  /** An empty address records `Required` and halts before the second rule;
      otherwise both rules run and `Invalid` is recorded iff the string is
      not an address. */
  lemma ExplicitOutcome(email: string)
    ensures var run := EvalList(Explicit, map["email" := Str(email)], StringRegistry());
      && run.status == (if email == "" then Halted else Continued)
      && run.errors == (if email == "" then [Required] else if IsEmail(email) then [] else [Invalid])
      && (email == "" ==> run.trace == [Event(Explicit[0], No)])
  {
    var inputs := map["email" := Str(email)];
    var R := StringRegistry();
    var v := Str(email);
    assert InputValue(inputs, "email") == v;
    BindInput("email", inputs);
    assert "{" + "email" + "}" == "{email}";
    CallString("notEmpty", [v]);
    CallString("email", [v]);
    var first := EvalRule(Explicit[0], inputs, R);
    var tail := Explicit[1..];
    var rest := EvalList(tail, inputs, R);
    assert tail[0] == Explicit[1] && tail[1..] == [];
    assert rest == AndThen(EvalRule(tail[0], inputs, R), EvalList(tail[1..], inputs, R));
    assert EvalList(Explicit, inputs, R) == AndThen(first, rest);
    if email != "" {
      assert first == Run(Continued, [], [Event(Explicit[0], Yes)]);
    }
  }

  /** `a@b.com` is an address. */
  lemma SimpleAddress()
    ensures IsEmail("a@b.com")
  {
    var s := "a@b.com";
    assert s[..1] == "a" && Word("a", IsLocalChar);
    var d := s[2..];
    assert d == "b.com" && d[..1] == "b" && d[2..] == "com";
    assert Word("b", IsLabelChar) && TopLevelLabel("com");
    assert AtSplit(s, 1);
  }

  /** The bar in `[\.|\+]` is a literal: `a|b@example.org` is an address. */
  lemma BarSeparatesLocalWords()
    ensures IsEmail("a|b@example.org")
  {
    var s := "a|b@example.org";
    var l := s[..3];
    assert l == "a|b" && l[..1] == "a" && l[2..] == "b";
    assert Word("a", IsLocalChar) && Word("b", IsLocalChar);
    assert SplitAt(l, 1, IsLocalChar, IsLocalSeparator);
    var d := s[4..];
    assert d == "example.org" && d[..7] == "example" && d[8..] == "org";
    assert Word("example", IsLabelChar) && TopLevelLabel("org");
    assert AtSplit(s, 3);
  }

  /** Case-blindness holds for ASCII lower-casing only: JavaScript's
      `toLowerCase` maps KELVIN SIGN (U+212A) to `k`, which the pattern's
      `[a-z]` under `i` does not match before lowering but matches after. */
  lemma KelvinSign()
    ensures !IsEmail("a@b.\U{212A}om") && IsEmail("a@b.kom")
  {
    var s := "a@b.\U{212A}om";
    var d := s[2..];
    assert d == "b.\U{212A}om" && d[2..] == "\U{212A}om";
    assert d[2..][0] == '\U{212A}' && !IsAsciiLetter(d[2..][0]);
    assert !TopLevelLabel(d[2..]);
    assert forall k :: 0 <= k < |d| && d[k] == '.' ==> k == 1;
    assert !DomainPart(d);
    assert forall i :: 0 <= i < |s| && s[i] == '@' ==> i == 1;
    var t := "a@b.kom";
    assert t[..1] == "a" && Word("a", IsLocalChar);
    var e := t[2..];
    assert e == "b.kom" && e[..1] == "b" && e[2..] == "kom";
    assert Word("b", IsLabelChar) && TopLevelLabel("kom");
    assert AtSplit(t, 1);
  }

  /** `validate` on `Explicit` with the input `email` bound to a string. */
  method ValidateExplicit(email: string) returns (verdict: Verdict, errors: seq<Value>)
    ensures verdict == if email == "" then NoCallback else if IsEmail(email) then SuccessCalled else FailureCalled
    ensures errors == if email == "" then [Required] else if IsEmail(email) then [] else [Invalid]
  {
    var validator := new SchemaValidator(Explicit, map["email" := Str(email)], StringRegistry());
    ExplicitOutcome(email);
    verdict := validator.Validate();
    errors := validator.GetErrors();
  }

  /** `validate` on `Explicit` for three addresses: `""` records
      `[Required]` and calls neither callback, `"not-an-email"` calls
      `failure` with `[Invalid]`, `"a@b.com"` calls `success`. */
  method ExplicitScenario()
    returns (v1: Verdict, e1: seq<Value>, v2: Verdict, e2: seq<Value>, v3: Verdict, e3: seq<Value>)
    ensures v1 == NoCallback && e1 == [Required]
    ensures v2 == FailureCalled && e2 == [Invalid]
    ensures v3 == SuccessCalled && e3 == []
  {
    NoAtNoEmail("not-an-email");
    SimpleAddress();
    v1, e1 := ValidateExplicit("");
    v2, e2 := ValidateExplicit("not-an-email");
    v3, e3 := ValidateExplicit("a@b.com");
  }

  // ---------------------------------------------------------------------
  // Deferred failures run the failed rule's sub-rules

  const Remote := Validator("Remote", "check")

  /** A predicate that refuses everything, deferred or direct. */
  function Refusing(deferred: bool): (r: Registry) {
    map[Remote := Capability(deferred, args => No)]
  }

  /** A failing rule that goes on and records its error, over a child of the same kind. */
  const Chained: seq<Rule> := [
    Rule(Remote, [], Present([Rule(Remote, [], Present([]), Some(false), Some(false), Str("child"))]),
      Some(false), Some(false), Str("parent"))
  ]

  /** The same refusing predicate records one error when direct and two when
      deferred: a deferred failure continues with `fn`, into the sub-rules. */
  lemma DeferralMatters(inputs: Inputs)
    ensures SamePredicates(Refusing(false), Refusing(true))
    ensures !ProceedingRulesAreLeaves(Chained)
    ensures EvalList(Chained, inputs, Refusing(false)).status == Continued
    ensures EvalList(Chained, inputs, Refusing(false)).errors == [Str("parent")]
    ensures EvalList(Chained, inputs, Refusing(true)).status == Continued
    ensures EvalList(Chained, inputs, Refusing(true)).errors == [Str("parent"), Str("child")]
  {
    var parent := Chained[0];
    var child := parent.rules.list[0];
    assert !ProceedingRuleIsLeaf(parent);
    assert BindParams([], inputs) == Some([]);
    var c := EvalRule(child, inputs, Refusing(true));
    assert c == Run(Continued, [Str("child")], [Event(child, No)]);
    assert EvalList([child], inputs, Refusing(true)) == AndThen(c, Run(Continued, [], []));
    assert EvalList(Chained, inputs, Refusing(true)) == AndThen(EvalRule(parent, inputs, Refusing(true)), Run(Continued, [], []));
    assert EvalList(Chained, inputs, Refusing(false)) == AndThen(EvalRule(parent, inputs, Refusing(false)), Run(Continued, [], []));
  }

  // ---------------------------------------------------------------------
  // Sessions

  /** An empty schema on a fresh validator calls `success`. */
  method EmptySchemaSucceeds(inputs: Inputs, registry: Registry) returns (verdict: Verdict, errors: seq<Value>)
    ensures verdict == SuccessCalled && errors == []
  {
    var validator := new SchemaValidator([], inputs, registry);
    verdict := validator.Validate();
    errors := validator.GetErrors();
  }

  /** Validating twice on one instance: the schema is untouched, the second
      run repeats the first, and since `errors` is not reset the errors of
      the first run are pushed again; a failure stays a failure, and a
      success is repeated only because the first run recorded nothing. */
  method ValidateTwice(schema: seq<Rule>, inputs: Inputs, registry: Registry)
    returns (first: Verdict, second: Verdict, once: seq<Value>, twice: seq<Value>, kept: seq<Rule>)
    ensures twice == once + once
    ensures kept == schema
    ensures first == FailureCalled ==> second == FailureCalled
    ensures first == SuccessCalled <==> second == SuccessCalled
    ensures first == NoCallback <==> second == NoCallback
  {
    var validator := new SchemaValidator(schema, inputs, registry);
    first := validator.Validate();
    once := validator.GetErrors();
    second := validator.Validate();
    twice := validator.GetErrors();
    kept := validator.schema;
  }

  /** A session that halted records errors that stay in `errors`: a later
      run on the same instance that completes calls `failure`, never `success`. */
  method HaltedErrorsPersist(schema: seq<Rule>, later: seq<Rule>, inputs: Inputs, registry: Registry)
    returns (first: Verdict, second: Verdict)
    requires EvalList(schema, inputs, registry).errors != []
    ensures second != SuccessCalled
    ensures EvalList(later, inputs, registry).status == Continued ==> second == FailureCalled
  {
    var validator := new SchemaValidator(schema, inputs, registry);
    first := validator.Validate();
    validator.schema := later;
    second := validator.Validate();
  }

  /** `validate` on a fresh validator over `window.StringValidator`. */
  method Session(schema: seq<Rule>, inputs: Inputs) returns (verdict: Verdict)
    ensures verdict == NoCallback <==> EvalList(schema, inputs, StringRegistry()).status == Halted
    ensures verdict == Threw <==> EvalList(schema, inputs, StringRegistry()).status == Crashed
  {
    var validator := new SchemaValidator(schema, inputs, StringRegistry());
    verdict := validator.Validate();
  }

  /** No example schema of the repository calls `success` or `failure`,
      whatever the inputs. */
  method ExamplesNeverCallBack(inputs: Inputs) returns (simple: Verdict, funnel: Verdict, failsafe: Verdict, nested: Verdict, full: Verdict)
    ensures simple == NoCallback || simple == Threw
    ensures funnel == NoCallback || funnel == Threw
    ensures failsafe == NoCallback || failsafe == Threw
    ensures nested == NoCallback || nested == Threw
    ensures full == NoCallback || full == Threw
  {
    SimpleOutcome(inputs);
    simple := Session(Simple, inputs);
    FunnelOutcome(inputs);
    funnel := Session(Funnel, inputs);
    FailsafeOutcome(inputs);
    failsafe := Session(Failsafe, inputs);
    NestedOutcome(inputs);
    nested := Session(Nested, inputs);
    FullOutcome(inputs);
    full := Session(Full, inputs);
  }
}
