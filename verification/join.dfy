/**
 * The registration route: its loader keeps signed-in users away from the
 * form, and its action checks the submission, refuses an email that is
 * already registered, creates the user and asks for a session for it.
 */
module Join {
  import opened Wrappers
  import opened Users
  import opened Http
  import opened Credentials
  import Login

  const USER_EXISTS := "A user already exists with this email"
  /** Where a new user goes when the form carries no `redirectTo`. */
  const DEFAULT_REDIRECT := "/"

  datatype JoinForm = JoinForm(email: FormValue, password: FormValue, redirectTo: FormValue)

  function Loader(sessionUser: Option<UserId>): (r: Response)
    ensures r.Redirect? <==> Truthy(sessionUser)
    ensures r.Redirect? ==> r.location == "/"
    ensures !r.Redirect? ==> r == EmptyPage
  {
    AnonymousOnly(sessionUser)
  }

  /**
   * The response of the registration action on a store holding `users`, when
   * the backend would give a newly created user the id `newId`.
   */
  function Decide(users: seq<User>, form: JoinForm, validateEmail: string -> bool, newId: UserId): (r: Response)
    ensures r.FieldError? || r.StartSession?
    ensures r.FieldError? ==> r.status == 400 && (r.field == Email || r.field == Password)
    ensures CheckShape(form.email, form.password, validateEmail).Failure?
            ==> r == CheckShape(form.email, form.password, validateEmail).error
    ensures CheckShape(form.email, form.password, validateEmail).Success?
            && FindByEmail(users, form.email.value).Some?
            ==> r == Invalid(Email, USER_EXISTS)
    ensures r.StartSession?
            <==> CheckShape(form.email, form.password, validateEmail).Success?
                 && forall u :: u in users ==> u.email != form.email.value
    ensures r.StartSession? ==> r.userId == newId && !r.remember
    ensures r.StartSession? ==> r.redirectTo == StringOr(form.redirectTo, DEFAULT_REDIRECT)
  {
    match CheckShape(form.email, form.password, validateEmail)
    case Failure(error) => error
    case Success(submitted) =>
      if FindByEmail(users, submitted.email).Some? then Invalid(Email, USER_EXISTS)
      else StartSession(newId, false, StringOr(form.redirectTo, DEFAULT_REDIRECT))
  }

  /** The user rows after the registration action: one more row exactly when it succeeds. */
  function UsersAfter(users: seq<User>, form: JoinForm, validateEmail: string -> bool, newId: UserId): seq<User>
  {
    if Decide(users, form, validateEmail, newId).StartSession?
    then users + [User(newId, form.email.value)]
    else users
  }

  /** The registration action, running against the user store. */
  method Action(store: UserStore, form: JoinForm, validateEmail: string -> bool, newId: UserId)
    returns (r: Response)
    requires store.Valid()
    modifies store
    ensures store.Valid()
    ensures r == Decide(old(store.users), form, validateEmail, newId)
    ensures store.users == UsersAfter(old(store.users), form, validateEmail, newId)
  {
    var shape := CheckShape(form.email, form.password, validateEmail);
    if shape.Failure? {
      return shape.error;
    }
    var email := shape.value.email;
    var existingUser := FindByEmail(store.users, email);
    if existingUser.Some? {
      return Invalid(Email, USER_EXISTS);
    }
    var user := store.CreateUser(email, newId);
    r := StartSession(user.id, false, StringOr(form.redirectTo, DEFAULT_REDIRECT));
  }

  /** Every error leaves the user rows as they were. */
  lemma ErrorCreatesNoUser(users: seq<User>, form: JoinForm, validateEmail: string -> bool, newId: UserId)
    requires Decide(users, form, validateEmail, newId).FieldError?
    ensures UsersAfter(users, form, validateEmail, newId) == users
  {
  }

  /** Registration never lets two rows share an email. */
  lemma RegistrationKeepsEmailsUnique(users: seq<User>, form: JoinForm, validateEmail: string -> bool, newId: UserId)
    requires UniqueEmails(users)
    ensures UniqueEmails(UsersAfter(users, form, validateEmail, newId))
  {
    if Decide(users, form, validateEmail, newId).StartSession? {
      AppendKeepsEmailsUnique(users, User(newId, form.email.value));
    }
  }

  /**
   * A successful registration adds exactly one row: a lookup of the submitted
   * email now finds the new user, and every other lookup answers as before.
   */
  lemma RegisteredUserIsFound(users: seq<User>, form: JoinForm, validateEmail: string -> bool, newId: UserId)
    requires Decide(users, form, validateEmail, newId).StartSession?
    ensures |UsersAfter(users, form, validateEmail, newId)| == |users| + 1
    ensures FindByEmail(UsersAfter(users, form, validateEmail, newId), form.email.value)
            == Some(User(newId, form.email.value))
    ensures forall email :: email != form.email.value ==>
              FindByEmail(UsersAfter(users, form, validateEmail, newId), email) == FindByEmail(users, email)
  {
    var user := User(newId, form.email.value);
    FindAfterAppend(users, user, user.email);
    forall email | email != user.email
      ensures FindByEmail(users + [user], email) == FindByEmail(users, email)
    {
      FindAfterAppend(users, user, email);
    }
  }

  /** Registering the same email a second time is refused, whatever the password. */
  lemma SecondRegistrationRefused(users: seq<User>, first: JoinForm, second: JoinForm,
                                  validateEmail: string -> bool, firstId: UserId, secondId: UserId)
    requires Decide(users, first, validateEmail, firstId).StartSession?
    requires second.email == first.email
    requires PasswordShapeOk(second.password)
    ensures Decide(UsersAfter(users, first, validateEmail, firstId), second, validateEmail, secondId)
            == Invalid(Email, USER_EXISTS)
  {
    RegisteredUserIsFound(users, first, validateEmail, firstId);
  }

  /**
   * The shape checks are the login route's: for the same email and password
   * both routes give the same response while a shape check fails, and neither
   * gets past them unless both do.
   */
  lemma SameShapeChecksAsLogin(users: seq<User>, form: JoinForm, validateEmail: string -> bool, newId: UserId,
                               login: Login.LoginForm, verifyLogin: (string, string) -> Option<User>)
    requires login.email == form.email && login.password == form.password
    ensures CheckShape(form.email, form.password, validateEmail).Failure?
            ==> Decide(users, form, validateEmail, newId) == Login.Action(login, validateEmail, verifyLogin)
  {
  }
}
