/** The address syntax that `StringValidator.email` tests with the pattern

      ^[_a-z0-9-]+([\.|\+][_a-z0-9-]+)*@[a-z0-9-]+(\.[a-z0-9-]+)*(\.[a-z]{2,4})$

    under the `i` flag. A pattern without back-references matches exactly
    the strings of the language it denotes, so the recogniser below states
    that language piece by piece: each predicate names the part of the
    pattern it stands for. Without the `u` flag, case-insensitive matching
    only pairs ASCII letters, so the classes below admit ASCII upper case and
    nothing else beyond what they list. */
module EmailSyntax {

  predicate IsAsciiLetter(c: char) {
    'a' <= c <= 'z' || 'A' <= c <= 'Z'
  }

  predicate IsDigit(c: char) {
    '0' <= c <= '9'
  }

  /** `[_a-z0-9-]` */
  predicate IsLocalChar(c: char) {
    c == '_' || IsAsciiLetter(c) || IsDigit(c) || c == '-'
  }

  /** `[\.|\+]`: inside a class `|` is an ordinary character, so a bar
      separates local-part words just as a dot or a plus does. */
  predicate IsLocalSeparator(c: char) {
    c == '.' || c == '|' || c == '+'
  }

  /** `[a-z0-9-]` */
  predicate IsLabelChar(c: char) {
    IsAsciiLetter(c) || IsDigit(c) || c == '-'
  }

  /** `\.` */
  predicate IsDot(c: char) {
    c == '.'
  }

  /** `U+`: a non-empty run of characters of class `unit`. */
  predicate Word(t: string, unit: char -> bool) {
    |t| > 0 && forall i :: 0 <= i < |t| ==> unit(t[i])
  }

  /** `U+(S U+)*`: words of class `unit` joined by single separators. */
  predicate Words(t: string, unit: char -> bool, sep: char -> bool)
    decreases |t|, 1
  {
    || Word(t, unit)
    || exists k :: 0 < k < |t| && SplitAt(t, k, unit, sep)
  }

  /** `[_a-z0-9-]+([\.|\+][_a-z0-9-]+)*` */
  predicate LocalPart(t: string) {
    Words(t, IsLocalChar, IsLocalSeparator)
  }

  /** `[a-z]{2,4}` */
  predicate TopLevelLabel(t: string) {
    2 <= |t| <= 4 && forall i :: 0 <= i < |t| ==> IsAsciiLetter(t[i])
  }

  /** `[a-z0-9-]+(\.[a-z0-9-]+)*(\.[a-z]{2,4})` */
  predicate DomainPart(t: string) {
    exists k :: 0 <= k < |t| && t[k] == '.' && Words(t[..k], IsLabelChar, IsDot) && TopLevelLabel(t[k + 1..])
  }

  /** The whole anchored pattern. */
  predicate IsEmail(s: string) {
    exists i :: 0 <= i < |s| && AtSplit(s, i)
  }

  /** `s[i]` is the `@` between a local part and a domain part. */
  predicate AtSplit(s: string, i: nat)
    requires i < |s|
  {
    s[i] == '@' && LocalPart(s[..i]) && DomainPart(s[i + 1..])
  }

  // ---------------------------------------------------------------------
  // What the pattern guarantees about a matching string

  lemma {:induction false} WordsAvoid(t: string, unit: char -> bool, sep: char -> bool, c: char)
    requires !unit(c) && !sep(c)
    requires Words(t, unit, sep)
    ensures c !in t
    decreases |t|
  {
    if !Word(t, unit) {
      var k :| 0 < k < |t| && SplitAt(t, k, unit, sep);
      WordsAvoid(t[k + 1..], unit, sep, c);
      assert t == t[..k] + [t[k]] + t[k + 1..];
    }
  }

  /** A domain part has no `@`, and its last `.` starts the top-level label. */
  lemma DomainPartShape(t: string)
    requires DomainPart(t)
    ensures '@' !in t
    ensures exists k :: 0 <= k < |t| && t[k] == '.' && '.' !in t[k + 1..] && TopLevelLabel(t[k + 1..])
  {
    var k :| 0 <= k < |t| && t[k] == '.' && Words(t[..k], IsLabelChar, IsDot) && TopLevelLabel(t[k + 1..]);
    WordsAvoid(t[..k], IsLabelChar, IsDot, '@');
    assert t == t[..k] + [t[k]] + t[k + 1..];
  }

  /** A matching string holds exactly one `@`, with a non-empty local part
      before it and a non-empty domain after it. */
  lemma EmailHasOneAt(s: string)
    requires IsEmail(s)
    ensures multiset(s)['@'] == 1
    ensures exists i :: 0 < i < |s| - 1 && s[i] == '@'
  {
    var i :| 0 <= i < |s| && AtSplit(s, i);
    WordsAvoid(s[..i], IsLocalChar, IsLocalSeparator, '@');
    DomainPartShape(s[i + 1..]);
    CountAround(s, i);
  }

  lemma CountAround(s: string, i: nat)
    requires i < |s| && s[i] !in s[..i] && s[i] !in s[i + 1..]
    ensures multiset(s)[s[i]] == 1
  {
    var a, b := s[..i], s[i + 1..];
    assert s == a + [s[i]] + b;
    assert multiset(a)[s[i]] == 0 && multiset(b)[s[i]] == 0;
  }

  /** The text after the last `.` of a matching string is two to four ASCII letters. */
  lemma EmailEndsInTopLevelLabel(s: string)
    requires IsEmail(s)
    ensures exists k :: 0 <= k < |s| && s[k] == '.' && '.' !in s[k + 1..] && TopLevelLabel(s[k + 1..])
  {
    var i :| 0 <= i < |s| && AtSplit(s, i);
    var d := s[i + 1..];
    DomainPartShape(d);
    var k :| 0 <= k < |d| && d[k] == '.' && '.' !in d[k + 1..] && TopLevelLabel(d[k + 1..]);
    assert s[i + 1 + k] == '.' && s[i + 1 + k + 1..] == d[k + 1..];
  }

  /** No string without an `@` matches; in particular the empty string does not. */
  lemma NoAtNoEmail(s: string)
    requires '@' !in s
    ensures !IsEmail(s)
  {
  }

  // ---------------------------------------------------------------------
  // Case-insensitivity

  /** ASCII lower-casing of one character. */
  function LowerChar(c: char): (r: char)
    ensures IsAsciiLetter(c) <==> IsAsciiLetter(r)
  {
    if 'A' <= c <= 'Z' then (c as int - 'A' as int + 'a' as int) as char else c
  }

  /** ASCII lower-casing of a string: same length, no upper-case ASCII letter left. */
  function ToLower(s: string): (r: string)
    ensures |r| == |s|
    ensures forall i :: 0 <= i < |r| ==> !('A' <= r[i] <= 'Z')
  {
    seq(|s|, i requires 0 <= i < |s| => LowerChar(s[i]))
  }

  /** Lower-casing twice is lower-casing once. */
  lemma ToLowerIdempotent(s: string)
    ensures ToLower(ToLower(s)) == ToLower(s)
  {
    var l := ToLower(s);
    forall i | 0 <= i < |l|
      ensures ToLower(l)[i] == l[i]
    {
      assert !('A' <= l[i] <= 'Z');
    }
  }

  /** A character class that cannot tell a character from its lower case. */
  ghost predicate CaseBlind(p: char -> bool) {
    forall c {:trigger LowerChar(c)} :: p(c) == p(LowerChar(c))
  }

  lemma LowerSlices(s: string, i: nat, j: nat)
    requires i <= j <= |s|
    ensures ToLower(s)[i..j] == ToLower(s[i..j])
  {
  }

  lemma WordCaseBlind(t: string, unit: char -> bool)
    requires CaseBlind(unit)
    ensures Word(t, unit) <==> Word(ToLower(t), unit)
  {
    assert forall i :: 0 <= i < |t| ==> ToLower(t)[i] == LowerChar(t[i]);
  }

  lemma {:induction false} WordsCaseBlind(t: string, unit: char -> bool, sep: char -> bool)
    requires CaseBlind(unit) && CaseBlind(sep)
    ensures Words(t, unit, sep) <==> Words(ToLower(t), unit, sep)
    decreases |t|
  {
    WordCaseBlind(t, unit);
    forall k | 0 < k < |t|
      ensures SplitAt(t, k, unit, sep) <==> SplitAt(ToLower(t), k, unit, sep)
    {
      WordsCaseBlind(t[k + 1..], unit, sep);
      SplitCaseBlind(t, k, unit, sep);
    }
  }

  /** The second disjunct of `Words`, at split point `k`. */
  predicate SplitAt(t: string, k: nat, unit: char -> bool, sep: char -> bool)
    requires 0 < k < |t|
    decreases |t|, 0
  {
    sep(t[k]) && Word(t[..k], unit) && Words(t[k + 1..], unit, sep)
  }

  lemma SplitCaseBlind(t: string, k: nat, unit: char -> bool, sep: char -> bool)
    requires CaseBlind(unit) && CaseBlind(sep) && 0 < k < |t|
    requires Words(t[k + 1..], unit, sep) <==> Words(ToLower(t[k + 1..]), unit, sep)
    ensures SplitAt(t, k, unit, sep) <==> SplitAt(ToLower(t), k, unit, sep)
  {
    var l := ToLower(t);
    LowerSlices(t, 0, k);
    LowerSlices(t, k + 1, |t|);
    assert l[..k] == ToLower(t[..k]);
    assert l[k + 1..] == ToLower(t[k + 1..]);
    WordCaseBlind(t[..k], unit);
    assert Word(t[..k], unit) <==> Word(l[..k], unit);
    assert sep(t[k]) == sep(l[k]);
    assert Words(t[k + 1..], unit, sep) <==> Words(l[k + 1..], unit, sep);
  }

  lemma DomainPartCaseBlind(t: string)
    ensures DomainPart(t) <==> DomainPart(ToLower(t))
  {
    var l := ToLower(t);
    forall k | 0 <= k < |t|
      ensures (t[k] == '.' && Words(t[..k], IsLabelChar, IsDot) && TopLevelLabel(t[k + 1..]))
          <==> (l[k] == '.' && Words(l[..k], IsLabelChar, IsDot) && TopLevelLabel(l[k + 1..]))
    {
      DomainSplitCaseBlind(t, k);
    }
  }

  lemma DomainSplitCaseBlind(t: string, k: nat)
    requires k < |t|
    ensures var l := ToLower(t);
      (t[k] == '.' && Words(t[..k], IsLabelChar, IsDot) && TopLevelLabel(t[k + 1..]))
      <==> (l[k] == '.' && Words(l[..k], IsLabelChar, IsDot) && TopLevelLabel(l[k + 1..]))
  {
    var l := ToLower(t);
    LowerSlices(t, 0, k);
    LowerSlices(t, k + 1, |t|);
    assert l[..k] == ToLower(t[..k]);
    assert l[k + 1..] == ToLower(t[k + 1..]);
    assert l[k] == LowerChar(t[k]);
    WordsCaseBlind(t[..k], IsLabelChar, IsDot);
    TopLevelLabelCaseBlind(t[k + 1..]);
  }

  lemma TopLevelLabelCaseBlind(t: string)
    ensures TopLevelLabel(t) <==> TopLevelLabel(ToLower(t))
  {
    var l := ToLower(t);
    assert forall i :: 0 <= i < |t| ==> (IsAsciiLetter(t[i]) <==> IsAsciiLetter(l[i]));
  }

  /** The pattern is matched case-insensitively: lower-casing the ASCII
      letters of a string never changes whether it is an address. */
  lemma EmailIgnoresCase(s: string)
    ensures IsEmail(s) <==> IsEmail(ToLower(s))
  {
    forall i | 0 <= i < |s|
      ensures AtSplit(s, i) <==> AtSplit(ToLower(s), i)
    {
      AtSplitCaseBlind(s, i);
    }
  }

  lemma AtSplitCaseBlind(s: string, i: nat)
    requires i < |s|
    ensures AtSplit(s, i) <==> AtSplit(ToLower(s), i)
  {
    var l := ToLower(s);
    LowerSlices(s, 0, i);
    LowerSlices(s, i + 1, |s|);
    assert l[..i] == ToLower(s[..i]);
    assert l[i + 1..] == ToLower(s[i + 1..]);
    WordsCaseBlind(s[..i], IsLocalChar, IsLocalSeparator);
    DomainPartCaseBlind(s[i + 1..]);
  }
}
