/**
 * The login form's live validation, the password-reset guard and the welcome
 * name. Patterns.EMAIL_ADDRESS is the parameter `isEmail`.
 */
module Login {
  import opened Wrappers
  import opened Identity
  import Text

  const MIN_PASSWORD: int := 6

  predicate EmailError(email: string, isEmail: string -> bool) {
    email != [] && !isEmail(email)
  }

  predicate PasswordError(password: string) {
    password != [] && |password| < MIN_PASSWORD
  }

  /**
   * validateForm: the email is trimmed, the password is not; an empty field
   * shows no error, and the button is enabled exactly when both are filled in
   * and acceptable.
   */
  method ValidateForm(emailText: string, password: string, isEmail: string -> bool)
    returns (emailError: bool, passwordError: bool, loginEnabled: bool)
    ensures emailError == EmailError(Text.Trim(emailText), isEmail)
    ensures passwordError == PasswordError(password)
    ensures loginEnabled <==> Text.Trim(emailText) != [] && isEmail(Text.Trim(emailText)) && |password| >= MIN_PASSWORD
  {
    var email := Text.Trim(emailText);
    var isValid := true;

    if email == [] {
      emailError := false;
    } else if !isEmail(email) {
      emailError := true;
      isValid := false;
    } else {
      emailError := false;
    }

    if password == [] {
      passwordError := false;
    } else if |password| < MIN_PASSWORD {
      passwordError := true;
      isValid := false;
    } else {
      passwordError := false;
    }

    loginEnabled := isValid && email != [] && password != [];
  }

  /** sendPasswordResetEmail's guard: a reset is requested only for a non-empty, well-formed trimmed email. */
  function ResetRequest(emailText: string, isEmail: string -> bool): (r: Option<string>)
    ensures r.Some? <==> Text.Trim(emailText) != [] && isEmail(Text.Trim(emailText))
    ensures r.Some? ==> r.value == Text.Trim(emailText)
  {
    var email := Text.Trim(emailText);
    if email == [] || !isEmail(email) then None else Some(email)
  }

  /**
   * The name greeted after a successful sign-in: the profile display name when
   * non-null (even if empty), else the typed email's text before the first '@'.
   */
  function WelcomeName(user: Option<User>, email: string): (name: string)
    ensures user.Some? && user.value.displayName.Some? ==> name == user.value.displayName.value
    ensures user.None? || user.value.displayName.None? ==>
      '@' !in name && |name| <= |email| && name == email[..|name|] && (|name| < |email| ==> email[|name|] == '@')
  {
    if user.Some? && user.value.displayName.Some? then user.value.displayName.value
    else Text.BeforeFirst(email, '@')
  }
}
