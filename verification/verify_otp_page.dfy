/**
 * The one-time-code form of src/routes/auth/verify-otp.tsx: the search it
 * expects, the loader's redirect without an email, the submit button's
 * `disabled` rule, and `handleSubmit`, which checks the code and moves on to
 * the new-password page carrying the email and the code. The wait before
 * navigating is a timer that cannot fail, so the `catch` of the source is not
 * reachable here.
 */
module VerifyOtpPage {
  import opened Wrappers
  import opened Json
  import opened Sanitization
  import opened PageEffects
  import AuthGuard
  import NewPasswordPage

  const InvalidCodeText := "Please enter a valid 6-digit verification code"
  const ResetPasswordPath := "/auth/reset-password"
  const NewPasswordPath := "/auth/new-password"

  /** `validateSearch`: the email, `''` when missing or falsy. */
  function ValidateSearch(search: seq<(string, Json)>): (r: Json)
    ensures r == OrEmpty(Lookup(search, "email"))
  {
    OrEmpty(Lookup(search, "email"))
  }

  /** The loader: the guest guard, which always lets through, then a redirect when the email is empty. */
  function Load(lookup: AuthGuard.UserLookup, email: Json): (r: AuthGuard.Guard<()>)
    ensures r.Redirect? <==> !Truthy(email)
    ensures r.Redirect? ==> r.to == ResetPasswordPath
  {
    match AuthGuard.RequireGuest(lookup)
    case Redirect(to) => AuthGuard.Redirect(to)
    case Proceed(_) => if !Truthy(email) then AuthGuard.Redirect(ResetPasswordPath) else AuthGuard.Proceed(())
  }

  /** The submit button's `disabled`. */
  predicate SubmitDisabled(isLoading: bool, otp: string) {
    isLoading || |otp| != 6
  }

  /** Where a valid code leads: the new-password page, with the email and the code as they are. */
  function Onward(email: Json, otp: string): (r: Navigation)
    ensures r.to == NewPasswordPath
    ensures Lookup(r.search, "email") == Some(email) && Lookup(r.search, "otp") == Some(JStr(otp))
  {
    Navigation(NewPasswordPath, [("email", email), ("otp", JStr(otp))])
  }

  class VerifyOtpForm {
    var otp: string
    var isLoading: bool
    var error: string
    var navigations: seq<Navigation>

    constructor ()
      ensures otp == "" && !isLoading && error == "" && navigations == []
    {
      otp, isLoading, error, navigations := "", false, "", [];
    }

    /** `handleSubmit`: an error for a code `validateOTP` refuses, else onward to the new-password page. */
    method HandleSubmit(email: Json, isNumeric: string -> bool)
      modifies this
      ensures error == (if ValidateOtp(otp, isNumeric) then "" else InvalidCodeText)
      ensures navigations == old(navigations) + (if ValidateOtp(otp, isNumeric) then [Onward(email, otp)] else [])
      ensures otp == old(otp) && !isLoading
    {
      isLoading := true;
      error := "";
      if !ValidateOtp(otp, isNumeric) {
        error := InvalidCodeText;
        isLoading := false;
        return;
      }
      navigations := navigations + [Onward(email, otp)];
      isLoading := false;
    }

    /** `handleResend`: the error is cleared; the resend itself is a timer that cannot fail. */
    method HandleResend()
      modifies this
      ensures error == ""
      ensures otp == old(otp) && isLoading == old(isLoading) && navigations == old(navigations)
    {
      error := "";
    }
  }

  // ----- Properties -----

  /** An enabled button means exactly six characters; whether they are digits is left to `validateOTP`. */
  lemma EnabledMeansSixCharacters(isLoading: bool, otp: string)
    ensures !SubmitDisabled(isLoading, otp) <==> !isLoading && |otp| == 6
  {
  }

  /** A code that passes, with a non-empty email, gets past the new-password page's redirect. */
  lemma AcceptedCodeOpensNewPassword(email: Json, otp: string, isNumeric: string -> bool)
    requires Truthy(email) && ValidateOtp(otp, isNumeric)
    ensures NewPasswordPage.BeforeLoad(NewPasswordPage.ValidateSearch(Onward(email, otp).search)).None?
  {
    assert otp != "";
  }
}
