/** The front end's copy of the password-complexity rule, selected by
    REACT_APP_PASSWORD_COMPLEXITY. It differs from the back end's in one
    place: `_` is not a special character. */
module FrontendPasswordValidation {
  import opened Wrappers
  import opened Strings
  import PasswordValidation

  /** The character class `[!@#$%^&*]`. */
  predicate IsSpecial(c: char) {
    c in "!@#$%^&*"
  }

  /** `/^(?=.*[A-Z])(?=.*\d)(?=.*[!@#$%^&*]).{8,}$/.test(password)`. */
  predicate ComplexPatternTest(password: string) {
    && LookaheadFinds(password, IsAsciiUpper)
    && LookaheadFinds(password, IsDigit)
    && LookaheadFinds(password, IsSpecial)
    && Utf16Length(password) >= 8 && NoLineTerminator(password)
  }

  /** `validatePasswordComplexity(password)` in the browser; the mode is
      resolved with `|| 'simple'` as on the server. */
  function ValidatePasswordComplexity(setting: Option<string>, password: string): (ok: bool)
    ensures PasswordValidation.EffectiveMode(setting) == "simple" ==> (ok <==> Utf16Length(password) >= 3)
    ensures PasswordValidation.EffectiveMode(setting) == "complex" ==>
      (ok <==> && Utf16Length(password) >= 8 && NoLineTerminator(password)
               && (exists i | 0 <= i < |password| :: IsAsciiUpper(password[i]))
               && (exists i | 0 <= i < |password| :: IsDigit(password[i]))
               && (exists i | 0 <= i < |password| :: IsSpecial(password[i])))
    ensures PasswordValidation.EffectiveMode(setting) !in {"simple", "complex"} ==> ok
  {
    var mode := PasswordValidation.EffectiveMode(setting);
    if mode == "simple" then
      Utf16Length(password) >= 3
    else if mode == "complex" then
      assert NoLineTerminator(password) ==> forall i | 0 <= i < |password| :: NoLineTerminator(password[..i]);
      ComplexPatternTest(password)
    else
      true
  }

  /** Whatever the browser lets through, the server accepts too (under the
      same mode setting): the browser's special set is a subset of the
      server's. */
  lemma FrontendAcceptImpliesBackendAccept(setting: Option<string>, password: string)
    requires ValidatePasswordComplexity(setting, password)
    ensures PasswordValidation.ValidatePasswordComplexity(setting, password)
  {
    if PasswordValidation.EffectiveMode(setting) == "complex" {
      var i :| 0 <= i < |password| && IsSpecial(password[i]);
      assert PasswordValidation.IsSpecial(password[i]);
    }
  }

  /** The converse fails: a password that meets every other part of the
      complex rule but whose special characters are all `_` passes the
      server's check and not the browser's. */
  lemma UnderscoreOnlyServerSide(setting: Option<string>, p: string)
    requires PasswordValidation.EffectiveMode(setting) == "complex"
    requires Utf16Length(p) >= 8 && NoLineTerminator(p)
    requires exists i | 0 <= i < |p| :: IsAsciiUpper(p[i])
    requires exists i | 0 <= i < |p| :: IsDigit(p[i])
    requires '_' in p
    requires forall i | 0 <= i < |p| :: !IsSpecial(p[i])
    ensures PasswordValidation.ValidatePasswordComplexity(setting, p)
    ensures !ValidatePasswordComplexity(setting, p)
  {
    var i :| 0 <= i < |p| && p[i] == '_';
    assert PasswordValidation.IsSpecial(p[i]);
  }

}
