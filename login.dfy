/** The admin login page: the field checks of the sign-in and sign-up forms,
    the `isSubmitting` flag around the authentication call, and what follows
    the call. The authentication service is outside the model: its answer
    (an error message or none) is a parameter. */
module Login {
  import opened Common

  datatype AuthCall = SignIn(email: string, password: string) | SignUp(email: string, password: string)

  /** What one submit does: the call made, the toast shown, the route taken. */
  datatype Submission = Submission(call: Option<AuthCall>, toast: Toast, navigateTo: Option<string>)

  const FillAllFields := "Please fill in all fields"
  const PasswordTooShort := "Password must be at least 6 characters"
  const MinPasswordLength := 6

  /** The sign-in check: both fields are required. */
  function LoginError(email: string, password: string): (r: Option<string>)
    ensures r.None? <==> email != [] && password != []
    ensures r.Some? ==> r.value == FillAllFields
  {
    if email == [] || password == [] then Some(FillAllFields) else None
  }

  /** The sign-up checks: both fields are required, then the password needs
      at least six characters. */
  function SignupError(email: string, password: string): (r: Option<string>)
    ensures r.None? <==> email != [] && |password| >= MinPasswordLength
    ensures (email == [] || password == []) ==> r == Some(FillAllFields)
    ensures email != [] && 0 < |password| < MinPasswordLength ==> r == Some(PasswordTooShort)
  {
    if email == [] || password == [] then Some(FillAllFields)
    else if |password| < MinPasswordLength then Some(PasswordTooShort)
    else None
  }

  /** `handleLogin`, given the service's answer. */
  function LoginSubmission(email: string, password: string, authError: Option<string>): (r: Submission)
    ensures r.call.Some? <==> LoginError(email, password).None?
    ensures r.call.Some? ==> r.call.value == SignIn(email, password)
    ensures r.navigateTo.Some? <==> r.call.Some? && authError.None?
    ensures r.navigateTo.Some? ==> r.navigateTo.value == "/admin"
    ensures r.call.Some? && authError.Some? ==> r.toast == ErrorToast(authError.value)
    ensures r.call.None? ==> r.toast == ErrorToast(LoginError(email, password).value)
    ensures r.navigateTo.Some? ==> r.toast == SuccessToast("Logged in successfully!")
  {
    match LoginError(email, password)
    case Some(e) => Submission(None, ErrorToast(e), None)
    case None =>
      match authError
      case Some(m) => Submission(Some(SignIn(email, password)), ErrorToast(m), None)
      case None => Submission(Some(SignIn(email, password)), SuccessToast("Logged in successfully!"), Some("/admin"))
  }

  /** `handleSignup`, given the service's answer; it never changes route. */
  function SignupSubmission(email: string, password: string, authError: Option<string>): (r: Submission)
    ensures r.call.Some? <==> SignupError(email, password).None?
    ensures r.call.Some? ==> r.call.value == SignUp(email, password)
    ensures r.navigateTo.None?
    ensures r.toast.SuccessToast? <==> r.call.Some? && authError.None?
    ensures r.call.None? ==> r.toast == ErrorToast(SignupError(email, password).value)
    ensures r.call.Some? && authError.Some? ==> r.toast == ErrorToast(authError.value)
    ensures r.toast.SuccessToast? ==> r.toast.text == "Account created! You can now log in."
  {
    match SignupError(email, password)
    case Some(e) => Submission(None, ErrorToast(e), None)
    case None =>
      match authError
      case Some(m) => Submission(Some(SignUp(email, password)), ErrorToast(m), None)
      case None => Submission(Some(SignUp(email, password)), SuccessToast("Account created! You can now log in."), None)
  }

  /** A password too short for sign-up can still be tried for sign-in. */
  lemma ShortPasswordsOnlyBlockSignup(email: string, password: string, authError: Option<string>)
    requires email != [] && 0 < |password| < MinPasswordLength
    ensures SignupSubmission(email, password, authError) == Submission(None, ErrorToast(PasswordTooShort), None)
    ensures LoginSubmission(email, password, authError).call == Some(SignIn(email, password))
  {
  }

  /** A form the sign-up checks accept also passes the sign-in check. */
  lemma SignupAcceptedImpliesLoginAccepted(email: string, password: string)
    requires SignupError(email, password).None?
    ensures LoginError(email, password).None?
  {
  }

  /** The page's two forms and its submitting flag. */
  class LoginPage {
    var loginEmail: string
    var loginPassword: string
    var signupEmail: string
    var signupPassword: string
    var isSubmitting: bool

    constructor ()
      ensures loginEmail == [] && loginPassword == [] && signupEmail == [] && signupPassword == []
      ensures !isSubmitting
    {
      loginEmail, loginPassword, signupEmail, signupPassword := [], [], [], [];
      isSubmitting := false;
    }

    /** Sign-in with the service answering `authError`. `submittingAtCall` is
        the flag while the call is in flight; the flag is clear afterwards. */
    method HandleLogin(authError: Option<string>) returns (s: Submission, submittingAtCall: bool)
      modifies this
      ensures s == LoginSubmission(loginEmail, loginPassword, authError)
      ensures submittingAtCall <==> s.call.Some?
      ensures isSubmitting == (old(isSubmitting) && s.call.None?)
      ensures loginEmail == old(loginEmail) && loginPassword == old(loginPassword)
      ensures signupEmail == old(signupEmail) && signupPassword == old(signupPassword)
    {
      submittingAtCall := false;
      if loginEmail == [] || loginPassword == [] {
        s := Submission(None, ErrorToast(FillAllFields), None);
        return;
      }
      isSubmitting := true;
      submittingAtCall := isSubmitting;
      var call := SignIn(loginEmail, loginPassword);
      isSubmitting := false;
      if authError.Some? {
        s := Submission(Some(call), ErrorToast(authError.value), None);
      } else {
        s := Submission(Some(call), SuccessToast("Logged in successfully!"), Some("/admin"));
      }
    }

    /** Sign-up with the service answering `authError`. */
    method HandleSignup(authError: Option<string>) returns (s: Submission, submittingAtCall: bool)
      modifies this
      ensures s == SignupSubmission(signupEmail, signupPassword, authError)
      ensures submittingAtCall <==> s.call.Some?
      ensures isSubmitting == (old(isSubmitting) && s.call.None?)
      ensures loginEmail == old(loginEmail) && loginPassword == old(loginPassword)
      ensures signupEmail == old(signupEmail) && signupPassword == old(signupPassword)
    {
      submittingAtCall := false;
      if signupEmail == [] || signupPassword == [] {
        s := Submission(None, ErrorToast(FillAllFields), None);
        return;
      }
      if |signupPassword| < MinPasswordLength {
        s := Submission(None, ErrorToast(PasswordTooShort), None);
        return;
      }
      isSubmitting := true;
      submittingAtCall := isSubmitting;
      var call := SignUp(signupEmail, signupPassword);
      isSubmitting := false;
      if authError.Some? {
        s := Submission(Some(call), ErrorToast(authError.value), None);
      } else {
        s := Submission(Some(call), SuccessToast("Account created! You can now log in."), None);
      }
    }
  }
}
