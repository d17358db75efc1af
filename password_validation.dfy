/** The back end's password-complexity rule, selected by the
    PASSWORD_COMPLEXITY environment variable. */
module PasswordValidation {
  import opened Wrappers
  import opened Strings

  /** The character class `[!@#$%^&*_]`. */
  predicate IsSpecial(c: char) {
    c in "!@#$%^&*_"
  }

  /** `/^(?=.*[A-Z])(?=.*\d)(?=.*[!@#$%^&*_]).{8,}$/.test(password)`,
      read as the regular expression prescribes: three lookaheads from the
      start, then eight or more code units (`.` without the `u` flag
      matches one UTF-16 unit) none of which is a line terminator, up to
      the end of the input. */
  predicate ComplexPatternTest(password: string) {
    && LookaheadFinds(password, IsAsciiUpper)
    && LookaheadFinds(password, IsDigit)
    && LookaheadFinds(password, IsSpecial)
    && Utf16Length(password) >= 8 && NoLineTerminator(password)
  }

  /** `process.env.PASSWORD_COMPLEXITY || 'simple'`. */
  function EffectiveMode(setting: Option<string>): string {
    if setting.None? || setting.value == "" then "simple" else setting.value
  }

  /** `validatePasswordComplexity(password)`. Lengths are `length`s, in
      UTF-16 code units. Under "simple" a password needs three of them;
      under "complex" eight, with an upper-case letter, a digit and a
      special character, and no line break; any other mode accepts
      everything. An unset mode behaves as "simple". */
  function ValidatePasswordComplexity(setting: Option<string>, password: string): (ok: bool)
    ensures EffectiveMode(setting) == "simple" ==> (ok <==> Utf16Length(password) >= 3)
    ensures EffectiveMode(setting) == "complex" ==>
      (ok <==> && Utf16Length(password) >= 8 && NoLineTerminator(password)
               && (exists i | 0 <= i < |password| :: IsAsciiUpper(password[i]))
               && (exists i | 0 <= i < |password| :: IsDigit(password[i]))
               && (exists i | 0 <= i < |password| :: IsSpecial(password[i])))
    ensures EffectiveMode(setting) !in {"simple", "complex"} ==> ok
  {
    var mode := EffectiveMode(setting);
    if mode == "simple" then
      Utf16Length(password) >= 3
    else if mode == "complex" then
      assert NoLineTerminator(password) ==> forall i | 0 <= i < |password| :: NoLineTerminator(password[..i]);
      ComplexPatternTest(password)
    else
      true
  }

  /** The rejection message; note that it quotes six characters although the
      simple rule asks for three. */
  function ComplexityMessage(setting: Option<string>): string {
    if setting == Some("complex") then
      "Password must be at least 8 characters long, include an uppercase letter, a number, and a special character."
    else
      "Password must be at least 6 characters long."
  }

  /** An unset (or empty) PASSWORD_COMPLEXITY behaves exactly as "simple". */
  lemma UnsetIsSimple(password: string)
    ensures ValidatePasswordComplexity(None, password) == ValidatePasswordComplexity(Some("simple"), password)
    ensures ValidatePasswordComplexity(Some(""), password) == ValidatePasswordComplexity(Some("simple"), password)
  {
  }

  /** Every password the complex rule accepts, the simple rule accepts. */
  lemma ComplexImpliesSimple(password: string)
    requires ValidatePasswordComplexity(Some("complex"), password)
    ensures ValidatePasswordComplexity(Some("simple"), password)
  {
  }

  /** A password without any of `!@#$%^&*_` is refused under "complex",
      whatever its length and its other characters. */
  lemma ComplexNeedsSpecial(password: string)
    requires forall i | 0 <= i < |password| :: !IsSpecial(password[i])
    ensures !ValidatePasswordComplexity(Some("complex"), password)
  {
  }

  /** `length` counts UTF-16 code units: a two-character password passes
      the simple rule exactly when one of its characters lies above U+FFFF
      and so counts twice. */
  lemma AstralCountsTwice(c: char, d: char)
    ensures ValidatePasswordComplexity(Some("simple"), [c, d]) <==> c as int > 0xFFFF || d as int > 0xFFFF
  {
    assert [c, d][1..] == [d];
    assert Utf16Length([d]) == (if d as int > 0xFFFF then 2 else 1) + Utf16Length([]);
  }
}
