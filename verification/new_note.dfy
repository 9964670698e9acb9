/**
 * The new-note route's action: only a signed-in user may create a note; the
 * title and then the body must be non-empty text; the note is created for
 * the signed-in user and the browser is sent to it.
 */
module NewNote {
  import opened Wrappers
  import JsString
  import opened Users
  import opened Notes
  import opened Http

  const TITLE_REQUIRED := "Title is required"
  const BODY_REQUIRED := "Body is required"
  const NOTES_PATH := "/notes/"

  datatype NoteForm = NoteForm(title: FormValue, body: FormValue)

  /** `typeof v === "string" && v.length !== 0` */
  predicate Filled(v: FormValue) {
    v.Some? && JsString.Length(v.value) != 0
  }

  /**
   * The response of the action. `sessionUser` is what `requireUserId` finds
   * (none when it turns the request away); `newId` is the id the backend would
   * give the new note.
   */
  function Decide(sessionUser: Option<UserId>, form: NoteForm, newId: NoteId): (r: Response)
    ensures sessionUser.None? ==> r == AuthRequired
    ensures sessionUser.Some? && (form.title.None? || form.title.value == "")
            ==> r == Invalid(Title, TITLE_REQUIRED)
    ensures sessionUser.Some? && form.title.Some? && form.title.value != ""
            && (form.body.None? || form.body.value == "")
            ==> r == Invalid(Body, BODY_REQUIRED)
    ensures r.Redirect?
            <==> sessionUser.Some? && form.title.Some? && form.title.value != ""
                 && form.body.Some? && form.body.value != ""
    ensures r.Redirect? ==> |r.location| == |NOTES_PATH| + |newId|
                            && r.location[..|NOTES_PATH|] == NOTES_PATH
                            && r.location[|NOTES_PATH|..] == newId
  {
    if sessionUser.None? then AuthRequired
    else if !Filled(form.title) then Invalid(Title, TITLE_REQUIRED)
    else if !Filled(form.body) then Invalid(Body, BODY_REQUIRED)
    else Redirect(NOTES_PATH + newId)
  }

  /** The notes after the action: one more, owned by the session user, exactly when it succeeds. */
  function NotesAfter(notes: seq<Note>, sessionUser: Option<UserId>, form: NoteForm, newId: NoteId): seq<Note>
  {
    if Decide(sessionUser, form, newId).Redirect?
    then notes + [Note(newId, form.title.value, form.body.value, sessionUser.value)]
    else notes
  }

  /** The new-note action, running against the note store. */
  method Action(store: NoteStore, sessionUser: Option<UserId>, form: NoteForm, newId: NoteId)
    returns (r: Response)
    modifies store
    ensures r == Decide(sessionUser, form, newId)
    ensures store.notes == NotesAfter(old(store.notes), sessionUser, form, newId)
  {
    if sessionUser.None? {
      return AuthRequired;
    }
    var userId := sessionUser.value;
    var title, body := form.title, form.body;
    if title.None? || JsString.Length(title.value) == 0 {
      return Invalid(Title, TITLE_REQUIRED);
    }
    if body.None? || JsString.Length(body.value) == 0 {
      return Invalid(Body, BODY_REQUIRED);
    }
    var note := store.CreateNote(title.value, body.value, userId, newId);
    r := Redirect(NOTES_PATH + note.id);
  }

  /**
   * Without a signed-in user the form is never looked at and no note is
   * created.
   */
  lemma UnauthenticatedIgnoresForm(notes: seq<Note>, form: NoteForm, other: NoteForm, newId: NoteId, otherId: NoteId)
    ensures Decide(None, form, newId) == Decide(None, other, otherId) == AuthRequired
    ensures NotesAfter(notes, None, form, newId) == notes
  {
  }

  /** Every error leaves the notes as they were. */
  lemma ErrorCreatesNoNote(notes: seq<Note>, sessionUser: Option<UserId>, form: NoteForm, newId: NoteId)
    requires !Decide(sessionUser, form, newId).Redirect?
    ensures NotesAfter(notes, sessionUser, form, newId) == notes
  {
  }

  /**
   * A successful action adds exactly one note, with the submitted title and
   * body, to the session user's notes, and nobody else's notes change.
   */
  lemma NewNoteBelongsToSessionUser(notes: seq<Note>, sessionUser: Option<UserId>, form: NoteForm,
                                    newId: NoteId, owner: UserId)
    requires Decide(sessionUser, form, newId).Redirect?
    ensures |NotesAfter(notes, sessionUser, form, newId)| == |notes| + 1
    ensures OwnedBy(NotesAfter(notes, sessionUser, form, newId), owner)
            == OwnedBy(notes, owner)
               + (if owner == sessionUser.value then [Note(newId, form.title.value, form.body.value, owner)] else [])
  {
    OwnedByAppend(notes, Note(newId, form.title.value, form.body.value, sessionUser.value), owner);
  }
}
