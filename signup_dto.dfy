/**
 * The constraints on a sign-up body (src/auth/dto/signup.dto.ts) and the
 * validation errors they give rise to.
 *
 * The password pattern is
 *   ^(?=.*[A-Za-z])(?=.*\d)(?=.*[@$!%*#?&])[A-Za-z\d@$!%*#?&]{8,}$
 * a JavaScript regular expression without flags. `MatchesPasswordPattern`
 * follows its constructs; `PasswordPolicy` is the plain reading of it, and
 * `PatternIsPolicy` shows the two agree.
 */
module Dto {
  import opened Wrappers
  import opened FormatError

  /** `[A-Za-z]`. */
  predicate IsAsciiLetter(c: char) {
    'A' <= c <= 'Z' || 'a' <= c <= 'z'
  }

  /** `\d`: without the `u` flag, only the ASCII digits. */
  predicate IsAsciiDigit(c: char) {
    '0' <= c <= '9'
  }

  /** The eight symbols of `[@$!%*#?&]`. */
  const Specials: string := "@$!%*#?&"

  predicate IsSpecial(c: char) {
    c in Specials
  }

  /** `[A-Za-z\d@$!%*#?&]`: the only characters a password may contain. */
  predicate IsAllowed(c: char) {
    IsAsciiLetter(c) || IsAsciiDigit(c) || IsSpecial(c)
  }

  /** The characters `.` does not match: line feed, carriage return, line and paragraph separators. */
  predicate IsLineTerminator(c: char) {
    c == '\n' || c == '\r' || c == '\U{2028}' || c == '\U{2029}'
  }

  /**
   * `(?=.*[class])` at the start of the input: `.*` runs over characters
   * other than line terminators, then one character of the class follows.
   */
  predicate LookaheadFinds(s: string, inClass: char -> bool) {
    exists i :: 0 <= i < |s| && inClass(s[i]) && forall j :: 0 <= j < i ==> !IsLineTerminator(s[j])
  }

  /**
   * The whole pattern: `^` anchors at the start (there is no `m` flag), the
   * three lookaheads look from there, and `[...]{8,}$` must then consume
   * the whole input with at least eight allowed characters.
   */
  predicate MatchesPasswordPattern(s: string) {
    && LookaheadFinds(s, IsAsciiLetter)
    && LookaheadFinds(s, IsAsciiDigit)
    && LookaheadFinds(s, IsSpecial)
    && |s| >= 8
    && forall i :: 0 <= i < |s| ==> IsAllowed(s[i])
  }

  /** The policy in plain words: allowed characters only, at least eight, a letter, a digit and a symbol. */
  predicate PasswordPolicy(s: string) {
    && (forall i :: 0 <= i < |s| ==> IsAllowed(s[i]))
    && |s| >= 8
    && (exists i :: 0 <= i < |s| && IsAsciiLetter(s[i]))
    && (exists i :: 0 <= i < |s| && IsAsciiDigit(s[i]))
    && (exists i :: 0 <= i < |s| && IsSpecial(s[i]))
  }

  /** When every character is allowed, no line terminator stops a lookahead's `.*`. */
  lemma LookaheadOverAllowed(s: string, inClass: char -> bool, i: nat)
    requires forall k :: 0 <= k < |s| ==> IsAllowed(s[k])
    requires i < |s| && inClass(s[i])
    ensures LookaheadFinds(s, inClass)
  {
    forall j | 0 <= j < i
      ensures !IsLineTerminator(s[j])
    {
      assert IsAllowed(s[j]);
    }
  }

  /** The pattern accepts exactly the passwords the plain policy describes. */
  lemma PatternIsPolicy(s: string)
    ensures MatchesPasswordPattern(s) <==> PasswordPolicy(s)
  {
    if PasswordPolicy(s) {
      var l :| 0 <= l < |s| && IsAsciiLetter(s[l]);
      var d :| 0 <= d < |s| && IsAsciiDigit(s[d]);
      var p :| 0 <= p < |s| && IsSpecial(s[p]);
      LookaheadOverAllowed(s, IsAsciiLetter, l);
      LookaheadOverAllowed(s, IsAsciiDigit, d);
      LookaheadOverAllowed(s, IsSpecial, p);
    }
  }

  /** A character outside the allowed set (a space, `^`, anything not ASCII) makes the password fail. */
  lemma ForeignCharacterRejected(s: string, i: nat)
    requires i < |s| && !IsAllowed(s[i])
    ensures !MatchesPasswordPattern(s)
  {
  }

  /** A password shorter than eight characters fails. */
  lemma ShortPasswordRejected(s: string)
    requires |s| < 8
    ensures !MatchesPasswordPattern(s)
  {
  }

  /** A password that passes holds a letter, a digit and a symbol. */
  lemma PassingPasswordHasEachClass(s: string)
    requires MatchesPasswordPattern(s)
    ensures exists i :: 0 <= i < |s| && IsAsciiLetter(s[i])
    ensures exists i :: 0 <= i < |s| && IsAsciiDigit(s[i])
    ensures exists i :: 0 <= i < |s| && IsSpecial(s[i])
  {
  }

  /** Appending an allowed character to a passing password keeps it passing. */
  lemma AppendAllowedKeepsPassing(s: string, c: char)
    requires MatchesPasswordPattern(s) && IsAllowed(c)
    ensures MatchesPasswordPattern(s + [c])
  {
    var t := s + [c];
    forall k | 0 <= k < |t|
      ensures IsAllowed(t[k])
    {
      if k < |s| {
        assert t[k] == s[k];
      }
    }
    var l :| 0 <= l < |s| && IsAsciiLetter(s[l]);
    var d :| 0 <= d < |s| && IsAsciiDigit(s[d]);
    var p :| 0 <= p < |s| && IsSpecial(s[p]);
    assert t[l] == s[l] && t[d] == s[d] && t[p] == s[p];
    LookaheadOverAllowed(t, IsAsciiLetter, l);
    LookaheadOverAllowed(t, IsAsciiDigit, d);
    LookaheadOverAllowed(t, IsSpecial, p);
  }

  /** The password the service's tests sign up with passes. */
  lemma TestFixturePasses()
    ensures MatchesPasswordPattern("Test@1234")
  {
    var s := "Test@1234";
    assert IsAsciiLetter(s[0]) && IsSpecial(s[4]) && IsAsciiDigit(s[5]);
    PatternIsPolicy(s);
  }

  /** A sign-up body. */
  datatype SignUpDto = SignUpDto(username: string, email: string, password: string)

  /** `@IsNotEmpty` on a string: it is not the empty string. */
  predicate IsNotEmpty(s: string) {
    s != ""
  }

  /** Every decorator of the body holds; `isEmail` is class-validator's e-mail check. */
  predicate ValidSignUp(dto: SignUpDto, isEmail: string -> bool) {
    && IsNotEmpty(dto.username)
    && IsNotEmpty(dto.email) && isEmail(dto.email)
    && IsNotEmpty(dto.password) && MatchesPasswordPattern(dto.password)
  }

  /** class-validator's default message for `@IsNotEmpty`. */
  function NotEmptyMessage(property: string): string {
    property + " should not be empty"
  }

  const EmailMessage: string := "Please enter correct email"

  const PasswordMessage: string :=
    "Password must contain at least 1 letter, 1 number, 1 special character, and be 8 characters long."

  /** The message of one constraint, when it fails. */
  function Failed(holds: bool, message: string): seq<string> {
    if holds then [] else [message]
  }

  /** The messages of the failing constraints of each property, in property order. */
  function UsernameViolations(dto: SignUpDto): seq<string> {
    Failed(IsNotEmpty(dto.username), NotEmptyMessage("username"))
  }

  function EmailViolations(dto: SignUpDto, isEmail: string -> bool): seq<string> {
    Failed(IsNotEmpty(dto.email), NotEmptyMessage("email")) + Failed(isEmail(dto.email), EmailMessage)
  }

  function PasswordViolations(dto: SignUpDto): seq<string> {
    Failed(IsNotEmpty(dto.password), NotEmptyMessage("password")) + Failed(MatchesPasswordPattern(dto.password), PasswordMessage)
  }

  /** A property's error node, present only when some constraint of it failed. */
  function PropertyErrors(property: string, messages: seq<string>): seq<VErr> {
    if messages == [] then [] else [VErr(property, Some(messages), [])]
  }

  /** The error tree class-validator hands to the validation pipe for a sign-up body. */
  function ValidationErrors(dto: SignUpDto, isEmail: string -> bool): seq<VErr> {
    PropertyErrors("username", UsernameViolations(dto))
    + PropertyErrors("email", EmailViolations(dto, isEmail))
    + PropertyErrors("password", PasswordViolations(dto))
  }

  /** A property's error node flattens to its messages. */
  lemma PropertyErrorsFormat(property: string, messages: seq<string>)
    ensures Format(PropertyErrors(property, messages)) == Strs(messages)
  {
    if messages != [] {
      ConstraintsReported(VErr(property, Some(messages), []), []);
      assert [VErr(property, Some(messages), [])] + [] == [VErr(property, Some(messages), [])];
    }
  }

  /**
   * The messages the validation pipe reports for a sign-up body are every
   * violated constraint's message, property by property; there are none
   * exactly when the body is valid.
   */
  lemma SignUpErrorsReported(dto: SignUpDto, isEmail: string -> bool)
    ensures Format(ValidationErrors(dto, isEmail)) ==
            Strs(UsernameViolations(dto) + EmailViolations(dto, isEmail) + PasswordViolations(dto))
    ensures Format(ValidationErrors(dto, isEmail)) == [] <==> ValidSignUp(dto, isEmail)
  {
    var u := PropertyErrors("username", UsernameViolations(dto));
    var e := PropertyErrors("email", EmailViolations(dto, isEmail));
    var p := PropertyErrors("password", PasswordViolations(dto));
    FormatAppend(u + e, p);
    FormatAppend(u, e);
    PropertyErrorsFormat("username", UsernameViolations(dto));
    PropertyErrorsFormat("email", EmailViolations(dto, isEmail));
    PropertyErrorsFormat("password", PasswordViolations(dto));
    StrsAppend(UsernameViolations(dto), EmailViolations(dto, isEmail));
    StrsAppend(UsernameViolations(dto) + EmailViolations(dto, isEmail), PasswordViolations(dto));
  }

  lemma StrsAppend(a: seq<string>, b: seq<string>)
    ensures Strs(a + b) == Strs(a) + Strs(b)
  {
  }
}
