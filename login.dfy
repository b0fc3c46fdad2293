/** The log-in form of `src/pages/Login.jsx`: the same e-mail rule as the
    sign-up form, a password that only has to be there, and a submit that
    sends the credentials only when both pass. */
module LoginPage {
  import opened Wrappers
  import opened Forms
  import SignupPage

  const WelcomeBack: string := "Welcome back!"
  const LoginFailed: string := "Login failed"

  datatype Credentials = Credentials(email: string, password: string)

  /** `validate()`'s `newErrors`. */
  function Validate(email: string, password: string): (errors: Errors)
    ensures Email in errors <==> !LooksLikeEmail(email)
    ensures Password in errors <==> password == ""
    ensures Name !in errors && ConfirmPassword !in errors
    ensures Email in errors ==> errors[Email] == if email == "" then EmailRequired else EmailInvalid
    ensures Password in errors ==> errors[Password] == PasswordRequired
  {
    var mailed := WithError(map[], Email, EmailError(email));
    if password == "" then mailed[Password := PasswordRequired] else mailed
  }

  /** The form passes exactly when the e-mail has the expected shape and a
      password is given. */
  lemma ValidExactly(email: string, password: string)
    ensures NoErrors(Validate(email, password)) <==> LooksLikeEmail(email) && password != ""
  {
    NoErrorsExactly(Validate(email, password));
  }

  /** The e-mail rule is the sign-up form's, message for message. */
  lemma SameEmailRule(name: string, email: string, password: string, confirmPassword: string)
    ensures (Email in Validate(email, password)) == (Email in SignupPage.Validate(name, email, password, confirmPassword))
    ensures Email in Validate(email, password) ==>
      Validate(email, password)[Email] == SignupPage.Validate(name, email, password, confirmPassword)[Email]
  {
  }

  /** There is no length rule here: a password sign-up refuses as too
      short still logs in, and whatever passes sign-up passes log-in. */
  lemma LoginAcceptsShortPasswords()
    ensures NoErrors(Validate("a@b.c", "abc"))
    ensures !NoErrors(SignupPage.Validate("Ann", "a@b.c", "abc", "abc"))
  {
    EmailExamples();
    ValidExactly("a@b.c", "abc");
    SignupPage.ValidExactly("Ann", "a@b.c", "abc", "abc");
  }

  lemma SignupImpliesLogin(name: string, email: string, password: string, confirmPassword: string)
    requires NoErrors(SignupPage.Validate(name, email, password, confirmPassword))
    ensures NoErrors(Validate(email, password))
  {
    SignupPage.ValidExactly(name, email, password, confirmPassword);
    ValidExactly(email, password);
  }

  /** The page's state. */
  class LoginForm {
    var email: string
    var password: string
    var errors: Errors
    var loading: bool

    constructor ()
      ensures email == "" && password == "" && errors == map[] && !loading
    {
      email, password := "", "";
      errors, loading := map[], false;
    }

    /** `handleSubmit`: validate, and stop there on any error; otherwise
        mark the form busy and send the credentials. */
    method HandleSubmit() returns (request: Option<Credentials>)
      modifies this
      ensures errors == Validate(email, password)
      ensures request.Some? <==> NoErrors(errors)
      ensures request.Some? ==> request.value == Credentials(email, password) && loading
      ensures request.None? ==> loading == old(loading)
      ensures email == old(email) && password == old(password)
    {
      errors := Validate(email, password);
      if !NoErrors(errors) {
        return None;
      }
      loading := true;
      request := Some(Credentials(email, password));
    }

    /** The `try`/`catch`/`finally` after `login` answered. */
    method LoginSettled(reply: Result<(), Option<string>>) returns (notice: Notice)
      modifies this
      ensures notice == Settled(reply, WelcomeBack, LoginFailed)
      ensures !loading
      ensures email == old(email) && password == old(password) && errors == old(errors)
    {
      notice := Settled(reply, WelcomeBack, LoginFailed);
      loading := false;
    }
  }
}
