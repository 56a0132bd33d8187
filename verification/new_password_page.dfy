/**
 * The new-password form of src/routes/auth/new-password.tsx: the search it
 * expects, the redirect made before loading without one, and `handleSubmit`,
 * which compares the two sanitised passwords, then checks the length, and
 * then moves on to the login page. The wait before navigating is a timer
 * that cannot fail, so the `catch` of the source is not reachable here.
 */
module NewPasswordPage {
  import opened Wrappers
  import opened Json
  import opened Strings
  import opened Sanitization
  import opened PageEffects

  const MismatchText := "Passwords do not match"
  const ResetPasswordPath := "/auth/reset-password"
  const LoginPath := "/auth/login"

  /** The validated search: email and one-time code, each `''` when missing or falsy. */
  datatype NewPasswordSearch = NewPasswordSearch(email: Json, otp: Json)

  /** `validateSearch`. */
  function ValidateSearch(search: seq<(string, Json)>): (r: NewPasswordSearch)
    ensures r.email == OrEmpty(Lookup(search, "email")) && r.otp == OrEmpty(Lookup(search, "otp"))
  {
    NewPasswordSearch(OrEmpty(Lookup(search, "email")), OrEmpty(Lookup(search, "otp")))
  }

  /** `beforeLoad`: the redirect thrown when either entry is empty. */
  function BeforeLoad(s: NewPasswordSearch): (r: Option<string>)
    ensures r.Some? <==> !Truthy(s.email) || !Truthy(s.otp)
    ensures r.Some? ==> r.value == ResetPasswordPath
  {
    if !Truthy(s.email) || !Truthy(s.otp) then Some(ResetPasswordPath) else None
  }

  /** The first failure of a submit, if any: mismatch first, then the length rule on the sanitised new password. */
  function Check(newPassword: string, confirmPassword: string): (r: Option<string>)
    ensures r == Some(MismatchText) <==> SanitizeInput(newPassword) != SanitizeInput(confirmPassword)
    ensures r.None? <==> SanitizeInput(newPassword) == SanitizeInput(confirmPassword)
                         && ValidatePassword(SanitizeInput(newPassword)).isValid
    ensures r.Some? && r != Some(MismatchText) ==> r == ValidatePassword(SanitizeInput(newPassword)).message
  {
    var sanitizedNew := SanitizeInput(newPassword);
    if sanitizedNew != SanitizeInput(confirmPassword) then Some(MismatchText)
    else
      var v := ValidatePassword(sanitizedNew);
      MismatchTextDistinct();
      if !v.isValid then v.message else None
  }

  /** The mismatch message is neither of the length messages. */
  lemma MismatchTextDistinct()
    ensures MismatchText != PasswordTooShort && MismatchText != PasswordTooLong
  {
    assert MismatchText[8] == 's' && PasswordTooShort[8] == ' ' && PasswordTooLong[8] == ' ';
  }

  class NewPasswordForm {
    var newPassword: string
    var confirmPassword: string
    var isLoading: bool
    var error: string
    var navigations: seq<Navigation>

    constructor ()
      ensures newPassword == "" && confirmPassword == "" && !isLoading && error == "" && navigations == []
    {
      newPassword, confirmPassword, isLoading, error := "", "", false, "";
      navigations := [];
    }

    /** `handleSubmit`: the error shown is the first failure, or none; without one it moves on to the login page. */
    method HandleSubmit()
      modifies this
      ensures var c := Check(newPassword, confirmPassword);
        && error == (if c.Some? then c.value else "")
        && navigations == old(navigations) + (if c.None? then [Navigation(LoginPath, [])] else [])
      ensures newPassword == old(newPassword) && confirmPassword == old(confirmPassword)
      ensures !isLoading
    {
      isLoading := true;
      error := "";
      var sanitizedNewPassword := SanitizeInput(newPassword);
      var sanitizedConfirmPassword := SanitizeInput(confirmPassword);
      if sanitizedNewPassword != sanitizedConfirmPassword {
        error := MismatchText;
        isLoading := false;
        return;
      }
      var passwordValidation := ValidatePassword(sanitizedNewPassword);
      if !passwordValidation.isValid {
        error := passwordValidation.message.value;
        isLoading := false;
        return;
      }
      navigations := navigations + [Navigation(LoginPath, [])];
      isLoading := false;
    }
  }

  // ----- Properties -----

  /** The two passwords match exactly when they agree once surrounding whitespace is dropped. */
  lemma MatchIsTrimmedEquality(newPassword: string, confirmPassword: string)
    ensures Check(newPassword, confirmPassword) == Some(MismatchText) <==> Trim(newPassword) != Trim(confirmPassword)
  {
    SanitizeInputSame(newPassword, confirmPassword);
  }

  /** A mismatch is reported before the length: two different short passwords read as a mismatch. */
  lemma MismatchBeforeLength(newPassword: string, confirmPassword: string)
    requires Trim(newPassword) != Trim(confirmPassword) && |SanitizeInput(newPassword)| < 8
    ensures Check(newPassword, confirmPassword) == Some(MismatchText)
  {
    SanitizeInputSame(newPassword, confirmPassword);
  }

  /** A search from which either entry is missing is sent back to the reset page. */
  lemma MissingEntryRedirects(search: seq<(string, Json)>)
    requires "email" !in Keys(search) || "otp" !in Keys(search)
    ensures BeforeLoad(ValidateSearch(search)) == Some(ResetPasswordPath)
  {
  }
}
