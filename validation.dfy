/** The registration form and its four field rules (Registration.tsx,
    `validateForm`). */
module Validation {
  import opened Text
  import opened Email

  /** The form's state: what the user typed into the four inputs. */
  datatype RegistrationForm = RegistrationForm(
    username: string,
    email: string,
    password: string,
    confirmPassword: string)

  /** One message per field; the empty string means the field passed. */
  datatype FieldErrors = FieldErrors(
    username: string,
    email: string,
    password: string,
    confirmPassword: string)

  const NoErrors := FieldErrors("", "", "", "")

  const UsernameRequired := "Username is required"
  const InvalidEmail := "Enter a valid email"
  const PasswordTooShort := "Password must be at least 6 characters"
  const PasswordMismatch := "Passwords do not match"

  const MinPasswordLength := 6

  /** The username is not all whitespace. */
  ghost predicate UsernameOk(username: string) {
    !IsBlank(username)
  }

  /** The password is at least six UTF-16 code units long; nothing else is asked of it. */
  predicate PasswordOk(password: string) {
    Utf16Length(password) >= MinPasswordLength
  }

  /** All four rules hold. */
  ghost predicate FormValid(form: RegistrationForm) {
    && UsernameOk(form.username)
    && MatchesPattern(form.email)
    && PasswordOk(form.password)
    && form.confirmPassword == form.password
  }

  /** `validateForm`: every rule is evaluated, each failing rule sets its own
      field's message and nothing else, and the form is valid exactly when
      no message was set. */
  method ValidateForm(form: RegistrationForm) returns (valid: bool, errors: FieldErrors)
    ensures errors.username == if UsernameOk(form.username) then "" else UsernameRequired
    ensures errors.email == if MatchesPattern(form.email) then "" else InvalidEmail
    ensures errors.password == if PasswordOk(form.password) then "" else PasswordTooShort
    ensures errors.confirmPassword == if form.password == form.confirmPassword then "" else PasswordMismatch
    ensures valid <==> FormValid(form)
    ensures valid <==> errors == NoErrors
  {
    valid := true;
    errors := NoErrors;

    if Trim(form.username) == [] {
      errors := errors.(username := UsernameRequired);
      valid := false;
    }

    IsEmailIffPattern(form.email);
    if Trim(form.email) == [] || !IsEmail(form.email) {
      errors := errors.(email := InvalidEmail);
      valid := false;
    } else {
      AcceptedEmailShape(form.email);
    }

    if Utf16Length(form.password) < MinPasswordLength {
      errors := errors.(password := PasswordTooShort);
      valid := false;
    }

    if form.password != form.confirmPassword {
      errors := errors.(confirmPassword := PasswordMismatch);
      valid := false;
    }
  }

  /** An e-mail address is rejected by its own rule, independently of the
      `trim` test, exactly when the pattern fails: the pattern alone already
      refuses blank input. */
  lemma EmailBlankTestRedundant(email: string)
    ensures (Trim(email) == [] || !IsEmail(email)) <==> !MatchesPattern(email)
  {
    IsEmailIffPattern(email);
    if MatchesPattern(email) {
      AcceptedEmailShape(email);
    }
  }

  /** The length rule on a password of characters from the Basic Multilingual
      Plane is `|password| >= 6`: five characters fail, six pass, and there is
      no upper bound. */
  lemma PasswordLengthBoundary(password: string)
    requires forall i :: 0 <= i < |password| ==> password[i] as int <= 0xFFFF
    ensures PasswordOk(password) <==> |password| >= 6
  {
  }
}
