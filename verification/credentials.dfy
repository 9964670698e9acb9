/**
 * The shape checks that the login and registration actions both run on the
 * submitted email and password, in this order: email format, password
 * present, password at least 8 long. The first check that fails decides the
 * response.
 */
module Credentials {
  import opened Wrappers
  import JsString
  import opened Http

  const EMAIL_INVALID := "Email is invalid"
  const PASSWORD_REQUIRED := "Password is required"
  const PASSWORD_TOO_SHORT := "Password is too short"
  const MIN_PASSWORD_LENGTH: nat := 8

  /** Email and password that passed the shape checks. */
  datatype Submitted = Submitted(email: string, password: string)

  /**
   * `validateEmail(email)`. The validator itself lives outside the routes and is
   * a parameter here; it is a type guard, so an absent or non-text field never
   * passes.
   */
  predicate EmailAccepted(email: FormValue, validateEmail: string -> bool) {
    email.Some? && validateEmail(email.value)
  }

  /** The password check that fails first, if any. */
  predicate PasswordShapeOk(password: FormValue) {
    password.Some? && JsString.Length(password.value) >= MIN_PASSWORD_LENGTH
  }

  function CheckShape(email: FormValue, password: FormValue, validateEmail: string -> bool)
    : (r: Result<Submitted, Response>)
    ensures r.Success? <==> EmailAccepted(email, validateEmail) && PasswordShapeOk(password)
    ensures r.Success? ==> r.value == Submitted(email.value, password.value)
    ensures !EmailAccepted(email, validateEmail) ==> r == Failure(Invalid(Email, EMAIL_INVALID))
    ensures EmailAccepted(email, validateEmail) && password.None?
            ==> r == Failure(Invalid(Password, PASSWORD_REQUIRED))
    ensures EmailAccepted(email, validateEmail) && password.Some? && JsString.Length(password.value) < MIN_PASSWORD_LENGTH
            ==> r == Failure(Invalid(Password, PASSWORD_TOO_SHORT))
    ensures r.Failure? ==> r.error.FieldError? && r.error.status == 400
  {
    if !EmailAccepted(email, validateEmail) then
      Failure(Invalid(Email, EMAIL_INVALID))
    else if password.None? then
      Failure(Invalid(Password, PASSWORD_REQUIRED))
    else if JsString.Length(password.value) < MIN_PASSWORD_LENGTH then
      Failure(Invalid(Password, PASSWORD_TOO_SHORT))
    else
      Success(Submitted(email.value, password.value))
  }

  /**
   * A password of at least 8 characters is never too short; a shorter one
   * passes only when characters outside the Basic Multilingual Plane bring
   * its UTF-16 length up to 8.
   */
  lemma EightCharactersAreEnough(email: FormValue, password: string, validateEmail: string -> bool)
    requires EmailAccepted(email, validateEmail)
    requires |password| >= MIN_PASSWORD_LENGTH
    ensures CheckShape(email, Some(password), validateEmail) == Success(Submitted(email.value, password))
  {
  }

  /** Four emoji are four characters but eight UTF-16 code units: they pass the length check. */
  lemma FourEmojiPass(email: FormValue, validateEmail: string -> bool)
    requires EmailAccepted(email, validateEmail)
    ensures CheckShape(email, Some("\U{1F600}\U{1F600}\U{1F600}\U{1F600}"), validateEmail).Success?
  {
    var e := "\U{1F600}";
    assert JsString.Length(e) == 2;
    JsString.LengthOfConcat(e, e);
    JsString.LengthOfConcat(e + e, e);
    JsString.LengthOfConcat(e + e + e, e);
    assert e + e + e + e == "\U{1F600}\U{1F600}\U{1F600}\U{1F600}";
  }
}
