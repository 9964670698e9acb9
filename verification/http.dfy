/**
 * What a route handler hands back to the framework, and the form fields it
 * reads. A field that is absent, or present but not text (a file upload),
 * reads as `None`.
 */
module Http {
  import opened Wrappers
  import opened Users

  type FormValue = Option<string>

  /** The form field an error message is attached to. */
  datatype Field = Email | Password | Title | Body

  datatype Response =
    /** `json({ errors: { <field>: message } }, { status })` */
    | FieldError(field: Field, message: string, status: nat)
    /** `createUserSession({ request, userId, remember, redirectTo })` */
    | StartSession(userId: UserId, remember: bool, redirectTo: string)
    /** `redirect(location)` */
    | Redirect(location: string)
    /** `json({})`: render the page */
    | EmptyPage
    /** what `requireUserId` answers when the request has no signed-in user */
    | AuthRequired

  const BAD_REQUEST: nat := 400

  /** An error on exactly one field, with status 400. */
  function Invalid(field: Field, message: string): (r: Response)
    ensures r.FieldError? && r.status == 400
    ensures r.field == field && r.message == message
  {
    FieldError(field, message, BAD_REQUEST)
  }

  /** JavaScript truthiness of an optional string: absent and "" are both false. */
  predicate Truthy(v: FormValue) {
    v.Some? && v.value != ""
  }

  /** `typeof v === "string" ? v : default` */
  function StringOr(v: FormValue, default: string): (r: string)
    ensures v.Some? ==> r == v.value
    ensures v.None? ==> r == default
  {
    v.GetOr(default)
  }

  /**
   * The loader of a page only signed-out users should see: a signed-in user
   * (a truthy id from `getUserId`) is sent to "/", anyone else gets the page.
   */
  function AnonymousOnly(sessionUser: Option<UserId>): (r: Response)
    ensures r == Redirect("/") || r == EmptyPage
    ensures r.Redirect? <==> Truthy(sessionUser)
  {
    if Truthy(sessionUser) then Redirect("/") else EmptyPage
  }
}
