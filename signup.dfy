/** The sign-up form of `src/pages/Signup.jsx`: its four checks, and a
    submit that sends the registration only when none of them fails. */
module SignupPage {
  import opened Wrappers
  import opened Forms

  const NameRequired: string := "Name is required"
  const PasswordTooShort: string := "Password must be at least 6 characters"
  const PasswordsDiffer: string := "Passwords do not match"
  const MinPasswordLength: nat := 6

  const Welcome: string := "Account created successfully!"
  const RegistrationFailed: string := "Registration failed"

  /** What `register(name, email, password)` sends. */
  datatype Registration = Registration(name: string, email: string, password: string)

  /** `validate()`'s `newErrors`: each field's message, or no entry. */
  function Validate(name: string, email: string, password: string, confirmPassword: string): (errors: Errors)
    ensures Name in errors <==> name == ""
    ensures Email in errors <==> !LooksLikeEmail(email)
    ensures Password in errors <==> |password| < MinPasswordLength
    ensures ConfirmPassword in errors <==> password != confirmPassword
    ensures Name in errors ==> errors[Name] == NameRequired
    ensures Email in errors ==> errors[Email] == if email == "" then EmailRequired else EmailInvalid
    ensures Password in errors ==> errors[Password] == if password == "" then PasswordRequired else PasswordTooShort
    ensures ConfirmPassword in errors ==> errors[ConfirmPassword] == PasswordsDiffer
  {
    var named: Errors := if name == "" then map[Name := NameRequired] else map[];
    var mailed := WithError(named, Email, EmailError(email));
    var passworded :=
      if password == "" then mailed[Password := PasswordRequired]
      else if |password| < MinPasswordLength then mailed[Password := PasswordTooShort]
      else mailed;
    if password != confirmPassword then passworded[ConfirmPassword := PasswordsDiffer] else passworded
  }

  /** The form passes exactly when the name is given, the e-mail has the
      expected shape, the password has six characters and the two
      passwords agree. */
  lemma ValidExactly(name: string, email: string, password: string, confirmPassword: string)
    ensures NoErrors(Validate(name, email, password, confirmPassword))
      <==> name != "" && LooksLikeEmail(email) && |password| >= MinPasswordLength && password == confirmPassword
  {
    NoErrorsExactly(Validate(name, email, password, confirmPassword));
  }

  /** The confirmation is compared on its own: two empty passwords raise
      the password error but not the mismatch one. */
  lemma EmptyPasswordsAgree(name: string, email: string)
    ensures ConfirmPassword !in Validate(name, email, "", "")
    ensures Validate(name, email, "", "")[Password] == PasswordRequired
  {
  }

  /** The page's state. */
  class SignupForm {
    var name: string
    var email: string
    var password: string
    var confirmPassword: string
    var errors: Errors
    var loading: bool

    constructor ()
      ensures name == "" && email == "" && password == "" && confirmPassword == ""
      ensures errors == map[] && !loading
    {
      name, email, password, confirmPassword := "", "", "", "";
      errors, loading := map[], false;
    }

    /** `handleSubmit`: validate, and stop there on any error; otherwise
        mark the form busy and send the registration. */
    method HandleSubmit() returns (request: Option<Registration>)
      modifies this
      ensures errors == Validate(name, email, password, confirmPassword)
      ensures request.Some? <==> NoErrors(errors)
      ensures request.Some? ==> request.value == Registration(name, email, password) && loading
      ensures request.None? ==> loading == old(loading)
      ensures name == old(name) && email == old(email)
      ensures password == old(password) && confirmPassword == old(confirmPassword)
    {
      errors := Validate(name, email, password, confirmPassword);
      if !NoErrors(errors) {
        return None;
      }
      loading := true;
      request := Some(Registration(name, email, password));
    }

    /** The `try`/`catch`/`finally` after `register` answered. */
    method RegisterSettled(reply: Result<(), Option<string>>) returns (notice: Notice)
      modifies this
      ensures notice == Settled(reply, Welcome, RegistrationFailed)
      ensures !loading
      ensures name == old(name) && email == old(email) && errors == old(errors)
      ensures password == old(password) && confirmPassword == old(confirmPassword)
    {
      notice := Settled(reply, Welcome, RegistrationFailed);
      loading := false;
    }
  }
}
