/**
 * The sign-up form's live validation and the mapping of a failed registration
 * to a field error. Patterns.EMAIL_ADDRESS is the parameter `isEmail`.
 */
module Signup {
  import opened Wrappers
  import Text

  const MIN_USERNAME: int := 3
  const MIN_PASSWORD: int := 6
  const EMAIL_IN_USE: string := "email address is already in use"

  /** Which of the four fields currently show an error. */
  datatype FieldErrors = FieldErrors(username: bool, email: bool, password: bool, confirm: bool)

  // The per-field rules; an empty field never shows an error.

  predicate UsernameError(username: string) {
    username != [] && |username| < MIN_USERNAME
  }

  predicate EmailError(email: string, isEmail: string -> bool) {
    email != [] && !isEmail(email)
  }

  predicate PasswordError(password: string) {
    password != [] && |password| < MIN_PASSWORD
  }

  predicate ConfirmError(confirm: string, password: string) {
    confirm != [] && confirm != password
  }

  /**
   * validateForm: username and email are trimmed, the passwords are not; each
   * field's error follows its rule, and the button is enabled exactly when every
   * field is filled in and acceptable.
   */
  method ValidateForm(usernameText: string, emailText: string, password: string, confirmPassword: string,
                      isEmail: string -> bool) returns (errors: FieldErrors, signupEnabled: bool)
    ensures var username := Text.Trim(usernameText);
      var email := Text.Trim(emailText);
      errors == FieldErrors(UsernameError(username), EmailError(email, isEmail), PasswordError(password),
                            ConfirmError(confirmPassword, password))
    ensures signupEnabled <==>
      && |Text.Trim(usernameText)| >= MIN_USERNAME
      && Text.Trim(emailText) != [] && isEmail(Text.Trim(emailText))
      && |password| >= MIN_PASSWORD
      && confirmPassword == password
  {
    var username := Text.Trim(usernameText);
    var email := Text.Trim(emailText);
    var isValid := true;
    var usernameError, emailError, passwordError, confirmError := false, false, false, false;

    if username == [] {
      usernameError := false;
    } else if |username| < MIN_USERNAME {
      usernameError := true;
      isValid := false;
    } else {
      usernameError := false;
    }

    if email == [] {
      emailError := false;
    } else if !isEmail(email) {
      emailError := true;
      isValid := false;
    } else {
      emailError := false;
    }

    if password == [] {
      passwordError := false;
    } else if |password| < MIN_PASSWORD {
      passwordError := true;
      isValid := false;
    } else {
      passwordError := false;
    }

    if confirmPassword == [] {
      confirmError := false;
    } else if confirmPassword != password {
      confirmError := true;
      isValid := false;
    } else {
      confirmError := false;
    }

    errors := FieldErrors(usernameError, emailError, passwordError, confirmError);
    signupEnabled := isValid && username != [] && email != [] && password != [] && confirmPassword != [];
  }

  /** How attemptSignup's failure branch ends: the long toast's text, and whether the email field shows "already registered". */
  datatype Failure = Failure(toast: string, emailFieldError: bool)

  /**
   * attemptSignup's failure branch: the toast shows the exception's message, or
   * the registration-failed text when there is no exception; the email field is
   * marked exactly when that text contains the duplicate-email phrase.
   */
  function RegistrationFailure(exceptionMessage: Option<string>, fallback: string): (f: Failure)
    ensures exceptionMessage.Some? ==> f.toast == exceptionMessage.value
    ensures exceptionMessage.None? ==> f.toast == fallback
    ensures f.emailFieldError <==> Text.Contains(f.toast, EMAIL_IN_USE)
  {
    var message := if exceptionMessage.Some? then exceptionMessage.value else fallback;
    Failure(message, Text.Contains(message, EMAIL_IN_USE))
  }

  /** Any exception message that mentions the phrase marks the email field, and is still shown whole. */
  lemma DuplicateEmailMarksField(before: string, after: string, fallback: string)
    ensures RegistrationFailure(Some(before + EMAIL_IN_USE + after), fallback)
         == Failure(before + EMAIL_IN_USE + after, true)
  {
    Text.ContainsInfix(before, EMAIL_IN_USE, after);
  }

  /** A message exactly as long as the phrase marks the field only when it is the phrase itself. */
  lemma PhraseLengthMessage(message: string, fallback: string)
    requires |message| == |EMAIL_IN_USE|
    ensures RegistrationFailure(Some(message), fallback).emailFieldError <==> message == EMAIL_IN_USE
  {
    if message == EMAIL_IN_USE {
      Text.ContainsInfix([], EMAIL_IN_USE, []);
      assert [] + EMAIL_IN_USE + [] == message;
    } else {
      forall i: nat | i + |EMAIL_IN_USE| <= |message|
        ensures !Text.OccursAt(message, EMAIL_IN_USE, i)
      {
        assert message[i..i + |EMAIL_IN_USE|] == message;
      }
    }
  }

  /** The check is case-sensitive: the phrase with a capital E does not mark the field. */
  lemma CapitalisedPhraseNotMatched(fallback: string)
    ensures !RegistrationFailure(Some("Email address is already in use"), fallback).emailFieldError
  {
    var message := "Email address is already in use";
    assert message[0] != EMAIL_IN_USE[0];
    PhraseLengthMessage(message, fallback);
  }
}
