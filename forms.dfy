/**
 * The two text fields of the report: the feedback message, accepted when its trimmed
 * text is non-empty, and the subscription e-mail, accepted when it matches the pattern
 * `^[^\s@]+@[^\s@]+\.[^\s@]+$`. An accepted field is cleared; a refused one keeps the
 * reader's text for correction.
 */
module Forms {
  import opened JsText

  /** The field after a submit: whether it was accepted, and what the input now holds. */
  datatype FieldOutcome = FieldOutcome(accepted: bool, field: string)

  /** A non-empty run of the class `[^\s@]`. */
  predicate PlainRun(t: string) {
    |t| > 0 && forall k :: 0 <= k < |t| ==> !IsWhitespace(t[k]) && t[k] != '@'
  }

  /** `s` matches `^[^\s@]+@[^\s@]+\.[^\s@]+$`, read off the regular expression: a plain run,
      an `@`, a plain run, a literal dot, a plain run, and nothing else. */
  ghost predicate MatchesEmailPattern(s: string) {
    exists at, dot :: 0 <= at < dot < |s| && s[at] == '@' && s[dot] == '.' &&
      PlainRun(s[..at]) && PlainRun(s[at + 1..dot]) && PlainRun(s[dot + 1..])
  }

  predicate NoWhitespace(s: string) {
    forall k :: 0 <= k < |s| ==> !IsWhitespace(s[k])
  }

  /** `validateEmail`, decided directly: no whitespace anywhere, exactly one `@` with
      something before it, and after it a dot that is neither its first nor its last
      character. */
  function ValidateEmail(s: string): (ok: bool)
    ensures ok ==> NoWhitespace(s)
    ensures ok ==> var a := IndexOf(s, '@');
      0 < a < |s| - 3 && forall k :: 0 <= k < |s| && k != a ==> s[k] != '@'
  {
    var at := IndexOf(s, '@');
    var domain := if at < 0 then [] else s[at + 1..];
    NoWhitespace(s) && at > 0 && '@' !in domain && |domain| >= 2 && '.' in domain[1..|domain| - 1]
  }

  /** The direct decision agrees with the regular expression on every string. */
  lemma ValidateEmailMatchesPattern(s: string)
    ensures ValidateEmail(s) <==> MatchesEmailPattern(s)
  {
    if ValidateEmail(s) {
      ValidImpliesMatch(s);
    }
    if MatchesEmailPattern(s) {
      var a, d :| 0 <= a < d < |s| && s[a] == '@' && s[d] == '.' &&
        PlainRun(s[..a]) && PlainRun(s[a + 1..d]) && PlainRun(s[d + 1..]);
      MatchImpliesValid(s, a, d);
    }
  }

  lemma ValidImpliesMatch(s: string)
    requires ValidateEmail(s)
    ensures MatchesEmailPattern(s)
  {
    var at := IndexOf(s, '@');
    var domain := s[at + 1..];
    var inner := domain[1..|domain| - 1];
    var k := IndexOf(inner, '.');
    var dot := at + 2 + k;
    assert s[dot] == inner[k];
    PlainSlice(s, 0, at, at);
    PlainSlice(s, at + 1, dot, at);
    PlainSlice(s, dot + 1, |s|, at);
  }

  /** A non-empty slice of an accepted address holds no whitespace, and no `@` other than
      the one at `at`. */
  lemma PlainSlice(s: string, i: int, j: int, at: int)
    requires NoWhitespace(s) && 0 <= i < j <= |s| && 0 <= at < |s|
    requires forall k :: 0 <= k < |s| && k != at ==> s[k] != '@'
    requires at < i || j <= at
    ensures PlainRun(s[i..j])
  {
    forall k | 0 <= k < j - i ensures !IsWhitespace(s[i..j][k]) && s[i..j][k] != '@' {
      assert s[i..j][k] == s[i + k];
    }
  }

  lemma MatchImpliesValid(s: string, a: int, d: int)
    requires 0 <= a < d < |s| && s[a] == '@' && s[d] == '.'
    requires PlainRun(s[..a]) && PlainRun(s[a + 1..d]) && PlainRun(s[d + 1..])
    ensures ValidateEmail(s)
  {
    FirstAt(s, a);
    forall k | 0 <= k < |s| ensures !IsWhitespace(s[k]) {
      PlainAt(s, a, d, k);
    }
    var domain := s[a + 1..];
    forall k | 0 <= k < |domain| ensures domain[k] != '@' {
      PlainAt(s, a, d, a + 1 + k);
    }
    assert domain[1..|domain| - 1][d - a - 2] == '.';
  }

  /** The first `@` is at `a` when everything before `a` is a plain run. */
  lemma FirstAt(s: string, a: int)
    requires 0 <= a < |s| && s[a] == '@' && PlainRun(s[..a])
    ensures IndexOf(s, '@') == a
  {
  }

  /** Every character of a pattern match is non-whitespace, and none after the `@` is an `@`. */
  lemma PlainAt(s: string, a: int, d: int, k: int)
    requires 0 <= a < d < |s| && s[a] == '@' && s[d] == '.'
    requires PlainRun(s[..a]) && PlainRun(s[a + 1..d]) && PlainRun(s[d + 1..])
    requires 0 <= k < |s|
    ensures !IsWhitespace(s[k])
    ensures k > a ==> s[k] != '@'
  {
    if k < a {
      assert s[..a][k] == s[k];
    } else if a < k < d {
      assert s[a + 1..d][k - a - 1] == s[k];
    } else if k > d {
      assert s[d + 1..][k - d - 1] == s[k];
    }
  }

  /** The subscribe button: the e-mail is accepted exactly when it matches the pattern, and
      then the field is cleared. */
  function Subscribe(email: string): (r: FieldOutcome)
    ensures r.accepted <==> MatchesEmailPattern(email)
    ensures r.field == if r.accepted then "" else email
  {
    ValidateEmailMatchesPattern(email);
    if ValidateEmail(email) then FieldOutcome(true, "") else FieldOutcome(false, email)
  }

  /** The message submit button: the message is accepted exactly when it holds a
      non-whitespace character (`message.trim()` is truthy); then the field is cleared. */
  function SubmitMessage(message: string): (r: FieldOutcome)
    ensures r.accepted <==> exists k :: 0 <= k < |message| && !IsWhitespace(message[k])
    ensures r.field == if r.accepted then "" else message
  {
    TrimNonEmptyIff(message);
    if Trim(message) != [] then FieldOutcome(true, "") else FieldOutcome(false, message)
  }

  /** "a@b.co" is an e-mail address, "a@b" and "a.com" are not. */
  lemma EmailExamples()
    ensures ValidateEmail("a@b.co")
    ensures !ValidateEmail("a@b")
    ensures !ValidateEmail("a.com")
  {
    MatchImpliesValid("a@b.co", 1, 3);
  }

  /** "   " is no message; "great job" is one, and the field is then cleared. */
  lemma MessageExamples()
    ensures !SubmitMessage("   ").accepted
    ensures SubmitMessage("great job") == FieldOutcome(true, "")
  {
    assert !IsWhitespace("great job"[0]);
  }
}
