/**
 * The sign-in form of src/routes/auth/login.tsx: `handleSubmit` sanitises
 * both fields, checks the email and then the password, calls `loginFn` with
 * the sanitised values, and reacts to its result. `loginFn` is an input: how
 * its call ends.
 */
module LoginPage {
  import opened Wrappers
  import opened Strings
  import opened Sanitization
  import opened PageEffects

  const InvalidEmailText := "Please enter a valid email address"
  const WelcomeText := "Login successful! Redirecting..."
  const UnexpectedText := "An unexpected error occurred. Please try again."
  const DashboardPath := "/dashboard"

  /** How `await loginFn(...)` ends: it throws, or returns an object with an optional `error` and a `success` flag. */
  datatype LoginResult = LoginThrew | LoginReturned(error: Option<string>, success: bool)

  /** What a submit comes to. */
  datatype Outcome =
    | BadEmail
    | BadPassword(message: string)
    | Refused(message: string)
    | SignedIn
    | NoAnswer
    | Crashed

  /** Whether `loginFn` is called at all. */
  predicate Calls(o: Outcome) {
    !o.BadEmail? && !o.BadPassword?
  }

  /** What a `loginFn` call comes to: a thrown call, a refusal with its error, a success, or neither. */
  function Answer(result: LoginResult): (o: Outcome)
    ensures Calls(o)
    ensures result.LoginThrew? ==> o == Crashed
    ensures result.LoginReturned? && result.error.Some? && result.error.value != "" ==> o == Refused(result.error.value)
    ensures o.SignedIn? <==> result.LoginReturned? && (result.error.None? || result.error.value == "") && result.success
  {
    match result
    case LoginThrew => Crashed
    case LoginReturned(error, success) =>
      if error.Some? && error.value != "" then Refused(error.value)
      else if success then SignedIn
      else NoAnswer
  }

  /** The submit pipeline, in the order the checks are made. */
  function Submit(email: string, password: string, isEmail: string -> bool, result: LoginResult): (o: Outcome)
    ensures o.BadEmail? <==> !ValidateEmail(SanitizeInput(email), isEmail)
    ensures o.BadPassword? <==> ValidateEmail(SanitizeInput(email), isEmail)
                                && !ValidatePassword(SanitizeInput(password)).isValid
    ensures o.BadPassword? ==> o.message == ValidatePassword(SanitizeInput(password)).message.value
    ensures Calls(o) ==> o == Answer(result)
  {
    var sanitizedEmail := SanitizeInput(email);
    var sanitizedPassword := SanitizeInput(password);
    if !ValidateEmail(sanitizedEmail, isEmail) then BadEmail
    else if !ValidatePassword(sanitizedPassword).isValid then BadPassword(ValidatePassword(sanitizedPassword).message.value)
    else Answer(result)
  }

  /** The toasts a submit shows. */
  function ToastsOf(o: Outcome): (r: seq<Toast>)
    ensures |r| <= 1
    ensures r == [] <==> o.NoAnswer?
    ensures forall t :: t in r ==> (t.kind == Success <==> o.SignedIn?)
  {
    match o
    case BadEmail => [Toast(Error, InvalidEmailText)]
    case BadPassword(message) => [Toast(Error, message)]
    case Refused(message) => [Toast(Error, message)]
    case SignedIn => [Toast(Success, WelcomeText)]
    case NoAnswer => []
    case Crashed => [Toast(Error, UnexpectedText)]
  }

  class LoginForm {
    var email: string
    var password: string
    var isLoading: bool
    var toasts: seq<Toast>
    /** The navigations made so far. */
    var navigations: seq<Navigation>
    /** The number of `refreshUser()` calls. */
    var refreshes: nat

    constructor ()
      ensures email == "" && password == "" && !isLoading && toasts == [] && navigations == [] && refreshes == 0
    {
      email, password, isLoading := "", "", false;
      toasts, navigations, refreshes := [], [], 0;
    }

    /** `handleSubmit`; returns the credentials handed to `loginFn`, if it was called. */
    method HandleSubmit(isEmail: string -> bool, result: LoginResult) returns (sent: Option<(string, string)>)
      modifies this
      ensures var o := Submit(email, password, isEmail, result);
        && sent == (if Calls(o) then Some((SanitizeInput(email), SanitizeInput(password))) else None)
        && toasts == old(toasts) + ToastsOf(o)
        && navigations == old(navigations) + (if o.SignedIn? then [Navigation(DashboardPath, [])] else [])
        && refreshes == old(refreshes) + (if o.SignedIn? then 1 else 0)
      ensures email == old(email) && password == old(password)
      ensures !isLoading
    {
      isLoading := true;
      var sanitizedEmail := SanitizeInput(email);
      var sanitizedPassword := SanitizeInput(password);
      if !ValidateEmail(sanitizedEmail, isEmail) {
        toasts := toasts + [Toast(Error, InvalidEmailText)];
        isLoading := false;
        return None;
      }
      var passwordValidation := ValidatePassword(sanitizedPassword);
      if !passwordValidation.isValid {
        toasts := toasts + [Toast(Error, passwordValidation.message.value)];
        isLoading := false;
        return None;
      }
      sent := Some((sanitizedEmail, sanitizedPassword));
      React(result);
      isLoading := false;
    }

    /** The `try` block after the call: an error toast, or on success a refresh, a toast and the way to the dashboard. */
    method React(result: LoginResult)
      modifies this
      ensures toasts == old(toasts) + ToastsOf(Answer(result))
      ensures navigations == old(navigations) + (if Answer(result).SignedIn? then [Navigation(DashboardPath, [])] else [])
      ensures refreshes == old(refreshes) + (if Answer(result).SignedIn? then 1 else 0)
      ensures email == old(email) && password == old(password) && isLoading == old(isLoading)
    {
      match result {
        case LoginThrew =>
          toasts := toasts + [Toast(Error, UnexpectedText)];
        case LoginReturned(error, success) =>
          if error.Some? && error.value != "" {
            toasts := toasts + [Toast(Error, error.value)];
          } else if success {
            refreshes := refreshes + 1;
            toasts := toasts + [Toast(Success, WelcomeText)];
            navigations := navigations + [Navigation(DashboardPath, [])];
          }
      }
    }
  }

  // ----- Properties -----

  /** The email is checked first: a bad email is reported whatever the password and whatever the server would say. */
  lemma EmailFirst(email: string, p1: string, p2: string, isEmail: string -> bool, r1: LoginResult, r2: LoginResult)
    requires !ValidateEmail(SanitizeInput(email), isEmail)
    ensures Submit(email, p1, isEmail, r1) == Submit(email, p2, isEmail, r2) == BadEmail
  {
  }

  /** An error from the server wins over a success flag set alongside it. */
  lemma ErrorBeatsSuccess(email: string, password: string, isEmail: string -> bool, error: string)
    requires error != ""
    requires ValidateEmail(SanitizeInput(email), isEmail) && ValidatePassword(SanitizeInput(password)).isValid
    ensures Submit(email, password, isEmail, LoginReturned(Some(error), true)) == Refused(error)
  {
  }

  /**
   * The length rule is applied to the escaped password: a seven-character
   * password holding one of the five escaped characters is too short as
   * typed, yet passes, because escaping lengthens it.
   */
  lemma EscapedLengthCounts(password: string, i: nat)
    requires Trim(password) == password && |password| == 7
    requires i < 7 && IsSpecial(password[i])
    ensures !ValidatePassword(password).isValid
    ensures ValidatePassword(SanitizeInput(password)).isValid
  {
    EscapeHtmlGrows(password, i);
    assert |EscapeHtml(password)| <= 7 * 6 by {
      EscapeHtmlBound(password);
    }
  }
}
