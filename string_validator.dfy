/** The `StringValidator` singleton: predicates over the value in a rule's
    first parameter. They are plain JavaScript functions, so they receive any
    value at all; those that call a string method on it throw when it is not
    a string, which the `Answer` result records as `Raises`. */
module StringValidator {
  import opened JsValues
  import opened EmailSyntax

  /** `str.match(pattern) !== null` */
  function Email(str: Value): (a: Answer) {
    match str
    case Str(s) => AnswerOf(IsEmail(s))
    case _ => Raises
  }

  /** `str === ''` */
  predicate Empty(str: Value) {
    StrictEquals(str, Str(""))
  }

  /** `empty(str) || email(str)`: `email` runs only when `empty` is false. */
  function EmptyOrEmail(str: Value): (a: Answer) {
    if Empty(str) then Yes else Email(str)
  }

  /** `empty(str) || url(str)` */
  predicate EmptyOrUrl(str: Value) {
    Empty(str) || Url(str)
  }

  /** `str === value` */
  predicate Equals(str: Value, value: Value) {
    StrictEquals(str, value)
  }

  /** `list.contains(str)`: MooTools' `Array.contains`, an `indexOf` search
      with `===`. A list that is not an array has no such method here. */
  function InList(str: Value, list: Value): (a: Answer) {
    match list
    case Arr(items) => AnswerOf(exists i :: 0 <= i < |items| && StrictEquals(items[i], str))
    case _ => Raises
  }

  /** `str.length() <= length`: `length` of a string is a number, and calling
      a number throws, whatever the arguments. */
  function MaxLength(str: Value, length: Value): (a: Answer) {
    Raises
  }

  /** `empty(str) === false` */
  predicate NotEmpty(str: Value) {
    Empty(str) == false
  }

  /** Accepts everything. */
  predicate Url(str: Value) {
    true
  }

  // ---------------------------------------------------------------------
  // Properties

  /** Only the empty string is empty: `null` (an unbound parameter), numbers
      and the string "0" are not. */
  lemma EmptyMeansEmptyString(str: Value)
    ensures Empty(str) <==> str.Str? && |str.s| == 0
    ensures !Empty(Null) && !Empty(Undefined) && !Empty(Num(0.0)) && !Empty(Str("0"))
  {
  }

  /** `notEmpty` is the negation of `empty`; so an unbound parameter passes `notEmpty`. */
  lemma NotEmptyNegatesEmpty(str: Value)
    ensures NotEmpty(str) <==> !Empty(str)
    ensures NotEmpty(Null)
  {
  }

  /** `equals` is strict equality without coercion. */
  lemma EqualsIsStrict(a: Value, b: Value)
    ensures Equals(a, b) ==> a == b
    ensures a.Str? && b.Str? ==> (Equals(a, b) <==> a.s == b.s)
    ensures !Equals(Str("1"), Num(1.0)) && !Equals(Str("true"), Bool(true))
  {
    StrictEqualsIsIdentityOnPrimitives(a, b);
  }

  /** `emptyOrEmail` accepts a string iff it is empty or an address; the
      empty string in particular; any non-string makes `email` throw. */
  lemma EmptyOrEmailAccepts(str: Value)
    ensures str.Str? ==> (EmptyOrEmail(str) == Yes <==> str.s == "" || IsEmail(str.s))
    ensures str.Str? ==> EmptyOrEmail(str) != Raises
    ensures !str.Str? ==> EmptyOrEmail(str) == Raises
    ensures EmptyOrEmail(Str("")) == Yes
  {
  }

  /** `email` is false on the empty string and throws on a non-string. */
  lemma EmailOnEmptyAndNonStrings(str: Value)
    ensures Email(Str("")) == No
    ensures !str.Str? ==> Email(str) == Raises
  {
    NoAtNoEmail("");
  }

  /** `url` and hence `emptyOrUrl` accept every value. */
  lemma UrlAcceptsAll(str: Value)
    ensures Url(str) && EmptyOrUrl(str)
  {
  }

  /** A string is in an array iff it is one of its elements; an array
      element equal to it but of another type does not count. */
  lemma InListMembership(s: string, items: seq<Value>)
    ensures InList(Str(s), Arr(items)) == Yes <==> Str(s) in items
    ensures InList(Str(s), Arr(items)) != Raises
  {
    if Str(s) in items {
      var i :| 0 <= i < |items| && items[i] == Str(s);
      assert StrictEquals(items[i], Str(s));
    }
  }

  /** `maxLength` throws on every call. */
  lemma MaxLengthAlwaysThrows(str: Value, length: Value)
    ensures MaxLength(str, length) == Raises
  {
  }
}
