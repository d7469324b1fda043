/**
 * The strong-password rule shared by the backend's registration handler and
 * the client's registration form. Both use the same regular expression
 *
 *   ^(?=.*[a-z])(?=.*[A-Z])(?=.*\d)(?=.*[@$!%*?&])[A-Za-z\d@$!%*?&]{8,}$
 *
 * `MatchesStrongPasswordRegex` follows how a JavaScript engine runs it: four
 * look-aheads `.*X` (a `.` never crosses a line terminator) from the start,
 * then at least eight characters of the allowed class up to the end of input.
 * `StrongPassword` is the rule in plain terms; `RegexIsStrongPassword` proves
 * that the two agree on every string.
 */
module PasswordPolicy {
  import opened Strings

  /** Characters JavaScript's `.` does not match (no `s` flag). */
  predicate IsLineTerminator(c: char) {
    c == '\U{A}' || c == '\U{D}' || c == '\U{2028}' || c == '\U{2029}'
  }

  /** `[@$!%*?&]`. */
  predicate IsSpecial(c: char) {
    c == '@' || c == '$' || c == '!' || c == '%' || c == '*' || c == '?' || c == '&'
  }

  /** The character classes the expression uses. */
  datatype CharClass = Lower | Upper | Digit | Special | Allowed

  predicate InClass(c: char, k: CharClass) {
    match k
    case Lower => IsAsciiLower(c)
    case Upper => IsAsciiUpper(c)
    case Digit => IsAsciiDigit(c)
    case Special => IsSpecial(c)
    case Allowed => IsAsciiLower(c) || IsAsciiUpper(c) || IsAsciiDigit(c) || IsSpecial(c)
  }

  /** The look-ahead `(?=.*[k])` tried at index `i`: scan forward over non-terminators until a `k` character. */
  function LookaheadFrom(s: string, i: nat, k: CharClass): bool
    requires i <= |s|
    decreases |s| - i
  {
    if i == |s| then false
    else if InClass(s[i], k) then true
    else if IsLineTerminator(s[i]) then false
    else LookaheadFrom(s, i + 1, k)
  }

  /** `[A-Za-z\d@$!%*?&]{8,}$` from index 0. */
  predicate BodyMatches(s: string) {
    |s| >= 8 && forall i :: 0 <= i < |s| ==> InClass(s[i], Allowed)
  }

  /** `strongPasswordRegex.test(s)`. */
  predicate MatchesStrongPasswordRegex(s: string) {
    && LookaheadFrom(s, 0, Lower)
    && LookaheadFrom(s, 0, Upper)
    && LookaheadFrom(s, 0, Digit)
    && LookaheadFrom(s, 0, Special)
    && BodyMatches(s)
  }

  ghost predicate Has(s: string, k: CharClass) {
    exists i :: 0 <= i < |s| && InClass(s[i], k)
  }

  /**
   * The password policy: at least 8 characters, all letters, digits or one
   * of `@$!%*?&`, with at least one lower-case letter, one upper-case letter,
   * one digit and one of those symbols.
   */
  ghost predicate StrongPassword(s: string) {
    && |s| >= 8
    && (forall i :: 0 <= i < |s| ==> InClass(s[i], Allowed))
    && Has(s, Lower) && Has(s, Upper) && Has(s, Digit) && Has(s, Special)
  }

  /** Over a suffix free of line terminators, the look-ahead finds `k` exactly when one is there. */
  lemma {:induction false} LookaheadWithoutTerminators(s: string, i: nat, k: CharClass)
    requires i <= |s|
    requires forall j :: i <= j < |s| ==> !IsLineTerminator(s[j])
    ensures LookaheadFrom(s, i, k) <==> exists j :: i <= j < |s| && InClass(s[j], k)
    decreases |s| - i
  {
    if i < |s| && !InClass(s[i], k) {
      LookaheadWithoutTerminators(s, i + 1, k);
      assert forall j :: i <= j < |s| && InClass(s[j], k) ==> i + 1 <= j;
    }
  }

  /** The regular expression accepts exactly the strong passwords. */
  lemma RegexIsStrongPassword(s: string)
    ensures MatchesStrongPasswordRegex(s) <==> StrongPassword(s)
  {
    if BodyMatches(s) {
      assert forall j :: 0 <= j < |s| ==> !IsLineTerminator(s[j]) by {
        forall j | 0 <= j < |s| ensures !IsLineTerminator(s[j]) {
          assert InClass(s[j], Allowed);
        }
      }
      LookaheadWithoutTerminators(s, 0, Lower);
      LookaheadWithoutTerminators(s, 0, Upper);
      LookaheadWithoutTerminators(s, 0, Digit);
      LookaheadWithoutTerminators(s, 0, Special);
    }
  }

  /** Fewer than eight characters is never strong, whatever they are. */
  lemma ShortPasswordRejected(s: string)
    requires |s| < 8
    ensures !MatchesStrongPasswordRegex(s)
  {
  }

  /** A space is outside the allowed class, so a password containing one is refused. */
  lemma PasswordWithSpaceRejected(s: string, i: nat)
    requires i < |s| && s[i] == ' '
    ensures !MatchesStrongPasswordRegex(s)
  {
    assert !InClass(s[i], Allowed);
  }
}
