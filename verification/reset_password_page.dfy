/**
 * The reset-password form of src/routes/auth/reset-password.tsx:
 * `handleSubmit` sanitises the email, checks it, and moves on to the
 * one-time-code page carrying the sanitised email. The wait before
 * navigating is a timer that cannot fail, so the `catch` of the source is
 * not reachable here.
 */
module ResetPasswordPage {
  import opened Wrappers
  import opened Json
  import opened Strings
  import opened Sanitization
  import opened PageEffects
  import VerifyOtpPage
  import AuthGuard

  const InvalidEmailText := "Please enter a valid email address"
  const VerifyOtpPath := "/auth/verify-otp"

  /** Where a valid email leads: the one-time-code page with the sanitised email. */
  function Onward(email: string, isEmail: string -> bool): (r: Option<Navigation>)
    ensures r.Some? <==> ValidateEmail(SanitizeInput(email), isEmail)
    ensures r.Some? ==> r.value.to == VerifyOtpPath && Lookup(r.value.search, "email") == Some(JStr(SanitizeInput(email)))
  {
    if ValidateEmail(SanitizeInput(email), isEmail) then
      Some(Navigation(VerifyOtpPath, [("email", JStr(SanitizeInput(email)))]))
    else None
  }

  class ResetPasswordForm {
    var email: string
    var isLoading: bool
    var error: string
    var navigations: seq<Navigation>

    constructor ()
      ensures email == "" && !isLoading && error == "" && navigations == []
    {
      email, isLoading, error, navigations := "", false, "", [];
    }

    /** `handleSubmit`: the error cleared, then set for a refused email; otherwise onward. */
    method HandleSubmit(isEmail: string -> bool)
      modifies this
      ensures var next := Onward(email, isEmail);
        && error == (if next.Some? then "" else InvalidEmailText)
        && navigations == old(navigations) + (if next.Some? then [next.value] else [])
      ensures email == old(email) && !isLoading
    {
      isLoading := true;
      error := "";
      var sanitizedEmail := SanitizeInput(email);
      if !ValidateEmail(sanitizedEmail, isEmail) {
        error := InvalidEmailText;
        isLoading := false;
        return;
      }
      navigations := navigations + [Navigation(VerifyOtpPath, [("email", JStr(sanitizedEmail))])];
      isLoading := false;
    }
  }

  // ----- Properties -----

  /** The email carried on is the sanitised one, from which the typed email, trimmed, can be read back. */
  lemma CarriesSanitisedEmail(email: string, isEmail: string -> bool)
    requires Onward(email, isEmail).Some?
    ensures var e := Lookup(Onward(email, isEmail).value.search, "email").value;
      e.JStr? && Unescape(e.s) == Trim(email)
  {
    SanitizeInputDecodes(email);
  }

  /** An accepted, non-blank email gets past the one-time-code page's loader. */
  lemma AcceptedEmailOpensVerifyOtp(email: string, isEmail: string -> bool, lookup: AuthGuard.UserLookup)
    requires Onward(email, isEmail).Some? && !Blank(email)
    ensures VerifyOtpPage.Load(lookup, VerifyOtpPage.ValidateSearch(Onward(email, isEmail).value.search)).Proceed?
  {
    assert |SanitizeInput(email)| >= |Trim(email)| > 0;
  }
}
