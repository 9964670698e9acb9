/**
 * The login route: its loader keeps signed-in users away from the form, and
 * its action checks the submitted credentials and, when they are good, asks
 * for a session for the verified user.
 */
module Login {
  import opened Wrappers
  import opened Users
  import opened Http
  import opened Credentials

  const INVALID_CREDENTIALS := "Invalid email or password"
  /** Where a signed-in user goes when the form carries no `redirectTo`. */
  const DEFAULT_REDIRECT := "/notes"

  datatype LoginForm = LoginForm(email: FormValue, password: FormValue, redirectTo: FormValue, remember: FormValue)

  /** The user `verifyLogin(email, password)` yields for a shape-checked submission. */
  function Verified(form: LoginForm, validateEmail: string -> bool, verifyLogin: (string, string) -> Option<User>)
    : Option<User>
    requires CheckShape(form.email, form.password, validateEmail).Success?
  {
    verifyLogin(form.email.value, form.password.value)
  }

  function Loader(sessionUser: Option<UserId>): (r: Response)
    ensures r.Redirect? <==> Truthy(sessionUser)
    ensures r.Redirect? ==> r.location == "/"
    ensures !r.Redirect? ==> r == EmptyPage
  {
    AnonymousOnly(sessionUser)
  }

  /**
   * The login action. `verifyLogin` stands for the credential store's check
   * (lookup by email, then password comparison); it is consulted only once the
   * shape checks have passed.
   */
  function Action(form: LoginForm, validateEmail: string -> bool, verifyLogin: (string, string) -> Option<User>)
    : (r: Response)
    ensures r.FieldError? || r.StartSession?
    ensures r.FieldError? ==> r.status == 400 && (r.field == Email || r.field == Password)
    ensures CheckShape(form.email, form.password, validateEmail).Failure?
            ==> r == CheckShape(form.email, form.password, validateEmail).error
    ensures CheckShape(form.email, form.password, validateEmail).Success?
            && Verified(form, validateEmail, verifyLogin).None?
            ==> r == Invalid(Email, INVALID_CREDENTIALS)
    ensures r.StartSession?
            <==> CheckShape(form.email, form.password, validateEmail).Success?
                 && Verified(form, validateEmail, verifyLogin).Some?
    ensures r.StartSession? ==> r.userId == Verified(form, validateEmail, verifyLogin).value.id
    ensures r.StartSession? ==> (r.remember <==> form.remember == Some("on"))
    ensures r.StartSession? ==> r.redirectTo == StringOr(form.redirectTo, DEFAULT_REDIRECT)
  {
    match CheckShape(form.email, form.password, validateEmail)
    case Failure(error) => error
    case Success(submitted) =>
      match verifyLogin(submitted.email, submitted.password)
      case None => Invalid(Email, INVALID_CREDENTIALS)
      case Some(user) =>
        StartSession(user.id, form.remember == Some("on"), StringOr(form.redirectTo, DEFAULT_REDIRECT))
  }

  /**
   * An email the validator rejects decides the response on its own: the
   * password, the other fields and the credential store play no part.
   */
  lemma InvalidEmailDecidesAlone(form: LoginForm, other: LoginForm, validateEmail: string -> bool,
                                 verifyLogin: (string, string) -> Option<User>,
                                 otherVerify: (string, string) -> Option<User>)
    requires !EmailAccepted(form.email, validateEmail)
    requires other.email == form.email
    ensures Action(form, validateEmail, verifyLogin) == Action(other, validateEmail, otherVerify)
                                                     == Invalid(Email, EMAIL_INVALID)
  {
  }

  /**
   * An unknown email and a wrong password look the same: any two credential
   * stores that both refuse the submission produce the very same response.
   */
  lemma CredentialFailuresLookAlike(form: LoginForm, validateEmail: string -> bool,
                                    unknownEmail: (string, string) -> Option<User>,
                                    wrongPassword: (string, string) -> Option<User>)
    requires CheckShape(form.email, form.password, validateEmail).Success?
    requires unknownEmail(form.email.value, form.password.value).None?
    requires wrongPassword(form.email.value, form.password.value).None?
    ensures Action(form, validateEmail, unknownEmail) == Action(form, validateEmail, wrongPassword)
                                                      == Invalid(Email, INVALID_CREDENTIALS)
  {
  }

  /**
   * The submitted `redirectTo` is passed on unchanged, even when it is empty or
   * points off the site; only an absent field falls back to "/notes".
   */
  lemma RedirectTargetPassedThrough(form: LoginForm, validateEmail: string -> bool,
                                    verifyLogin: (string, string) -> Option<User>)
    requires Action(form, validateEmail, verifyLogin).StartSession?
    requires form.redirectTo.Some?
    ensures Action(form, validateEmail, verifyLogin).redirectTo == form.redirectTo.value
  {
  }
}
