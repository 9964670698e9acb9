# Sign-in, registration and note-creation handlers of blues-mui-stack

This project models, in Dafny, the server-side request handling of the three
form routes of the blues-mui-stack note-taking application:

- the **login** route (`app/routes/login.tsx`): its loader sends an already
  signed-in user to `/`; its action checks the email shape, the password's
  presence and length, asks the credential store to verify the pair, and on
  success asks for a user session (`remember` when the checkbox value is
  `"on"`, `redirectTo` defaulting to `/notes`);
- the **join** (registration) route (`app/routes/join.tsx`): the same loader and
  the same three shape checks, then refusal of an email already registered,
  creation of the user and a session with `remember = false` and `redirectTo`
  defaulting to `/`;
- the **new-note** route (`app/routes/notes/new.tsx`): a signed-in user is
  required before anything else, then a non-empty title, then a non-empty
  body; the note is created for the signed-in user and the browser is
  redirected to `/notes/<id>`.

Each handler returns exactly one `Http.Response`: a field error with status
400, a session-creation request (`StartSession`), a redirect, the empty page
of a loader, or the authentication-required answer of `requireUserId`.
Form fields are `Option<string>`: an absent or non-text field is `None`.

Layout, one module per file:

| file | module | what |
|---|---|---|
| `wrappers.dfy` | `Wrappers` | `Option`, `Result` |
| `js_string.dfy` | `JsString` | JavaScript `length` (UTF-16 code units) |
| `http.dfy` | `Http` | form values, responses, JavaScript truthiness, the signed-out-only loader |
| `credentials.dfy` | `Credentials` | the email/password shape checks shared by login and join |
| `users.dfy` | `Users` | user rows, lookup by email, the `UserStore` class |
| `notes.dfy` | `Notes` | notes, notes per owner, the `NoteStore` class |
| `login.dfy` | `Login` | `app/routes/login.tsx`: loader and action (pure functions) |
| `join.dfy` | `Join` | `app/routes/join.tsx`: loader, the decision function, the action method on `UserStore` |
| `new_note.dfy` | `NewNote` | `app/routes/notes/new.tsx`: the decision function, the action method on `NoteStore` |

The join and new-note actions change a store, so each is a `method` on the
store class whose postcondition ties its response and the new store contents
to two pure functions (`Decide`, `UsersAfter` / `NotesAfter`); the lemmas
state what those functions guarantee.

Modelling choices that follow the code:

- `password.length` and `title.length` are JavaScript lengths: UTF-16 code
  units, so a character outside the Basic Multilingual Plane counts twice
  (`JsString.Length`). Four emoji pass the 8-character minimum.
- The loaders test `if (userId)`, so an empty-string id counts as signed out
  (`Http.Truthy`).
- `redirectTo` is passed through unchanged whenever it is text, including the
  empty string and absolute URLs; the code has no internal-path check, so the
  model has none. A design that validates redirect targets would differ here.
- Emails are compared exactly as submitted; the code shows no normalisation.

## Model

| member | source | states |
|---|---|---|
| `JsString.Length` | app/routes/login.tsx:52 | JavaScript's length is at least the number of characters and at most twice it, zero exactly for the empty string, and equal to the character count for text inside the Basic Multilingual Plane |
| `Http.Invalid` | app/routes/login.tsx:39-42 | an error response names exactly one field and has status 400 |
| `Http.StringOr` | app/routes/login.tsx:72 | a text field is taken as submitted; only an absent or non-text field gets the default |
| `Http.AnonymousOnly` | app/routes/login.tsx:19-21 | a redirect to "/" exactly when the session holds a truthy user id, the empty page otherwise |
| `Credentials.CheckShape` | app/routes/login.tsx:38-57 | passes exactly when the validator accepts a present email and the password is present with length at least 8; otherwise the first failing check decides: "Email is invalid" on email, then "Password is required", then "Password is too short" on password, all with status 400 |
| `Credentials.EightCharactersAreEnough` | app/routes/login.tsx:52-57 | with an accepted email, any password of 8 or more characters passes, so a password of exactly 8 is not too short |
| `Credentials.FourEmojiPass` | app/routes/login.tsx:52 | a password of four characters outside the Basic Multilingual Plane passes the length check |
| `Login.Loader` | app/routes/login.tsx:18-22 | redirect to "/" if and only if a truthy session user id is present, otherwise the empty page |
| `Login.Action` | app/routes/login.tsx:31-74 | every response is a single-field 400 error or a session; shape errors come first and are those of `CheckShape`; a refused verification gives "Invalid email or password" on email; a session exactly when the shape checks pass and verification yields a user, bound to that user's id, with `remember` true iff the field is "on" and `redirectTo` the submitted text or "/notes" |
| `Login.InvalidEmailDecidesAlone` | app/routes/login.tsx:38-43 | a rejected email gives "Email is invalid" whatever the password, other fields and credential store |
| `Login.CredentialFailuresLookAlike` | app/routes/login.tsx:59-66 | any two credential stores that refuse the pair (unknown email, wrong password) give the same response, "Invalid email or password" on email |
| `Login.RedirectTargetPassedThrough` | app/routes/login.tsx:72 | a submitted `redirectTo` reaches the session request unchanged |
| `Users.FindByEmail` | app/routes/join.tsx:59 | a found user is in the store with exactly that email; nothing is found exactly when no row has that email |
| `Users.FindAfterAppend` | app/routes/join.tsx:59-67 | after a row is appended, earlier matches are unchanged and the new row is found by its email when nothing was before |
| `Users.AppendKeepsEmailsUnique` | app/routes/join.tsx:59-67 | appending a row whose email is not found keeps emails unique |
| `Users.UserStore.CreateUser` | app/routes/join.tsx:67 | appends exactly one row with the given email and id and keeps emails unique |
| `Join.Loader` | app/routes/join.tsx:19-23 | redirect to "/" if and only if a truthy session user id is present, otherwise the empty page |
| `Join.Decide` | app/routes/join.tsx:32-75 | every response is a single-field 400 error or a session; shape errors as in `CheckShape`; a registered email gives "A user already exists with this email" on email; a session exactly when the shape checks pass and no row has the email, bound to the new user's id, `remember` false, `redirectTo` the submitted text or "/" |
| `Join.Action` | app/routes/join.tsx:32-75 | the response is `Decide` on the old rows, the new rows are `UsersAfter`, and emails stay unique |
| `Join.ErrorCreatesNoUser` | app/routes/join.tsx:38-65 | every error path leaves the user rows unchanged |
| `Join.RegistrationKeepsEmailsUnique` | app/routes/join.tsx:59-67 | the registration action never gives two rows the same email |
| `Join.RegisteredUserIsFound` | app/routes/join.tsx:67-71 | success adds exactly one row; a lookup of the submitted email finds the new user with the session's id; every other lookup is unchanged |
| `Join.SecondRegistrationRefused` | app/routes/join.tsx:59-65 | after a successful registration, registering the same email again with any acceptable password is refused |
| `Join.SameShapeChecksAsLogin` | app/routes/join.tsx:38-57 | for the same email and password, while a shape check fails, join and login give the same error |
| `Notes.OwnedBy` | app/routes/notes/new.tsx:39 | the notes of an owner are exactly the store's notes with that owner |
| `Notes.OwnedByAppend` | app/routes/notes/new.tsx:39 | appending a note adds it to its owner's notes and to no one else's |
| `Notes.NoteStore.CreateNote` | app/routes/notes/new.tsx:39 | appends exactly one note with the given title, body, owner and id |
| `NewNote.Decide` | app/routes/notes/new.tsx:18-41 | no session user gives the authentication-required answer; then an absent or empty title gives "Title is required" on title; then an absent or empty body gives "Body is required" on body; a redirect exactly when all pass, to "/notes/" followed by the new note's id |
| `NewNote.Action` | app/routes/notes/new.tsx:18-42 | the response is `Decide`, and the new notes are `NotesAfter` of the old |
| `NewNote.UnauthenticatedIgnoresForm` | app/routes/notes/new.tsx:19 | without a session user the response does not depend on the form and no note is created |
| `NewNote.ErrorCreatesNoNote` | app/routes/notes/new.tsx:25-37 | every response other than the redirect leaves the notes unchanged |
| `NewNote.NewNoteBelongsToSessionUser` | app/routes/notes/new.tsx:39-41 | success adds exactly one note, with the submitted title and body, to the session user's notes, and nobody else's notes change |

## Left out

- `validateEmail`, `verifyLogin`, `getUserId`, `requireUserId` and `createUserSession` live in `~/utils`, `~/models/user.server` and `~/session.server`, which are not part of this model. The validator and the credential check are parameters (`string -> bool`, `(string, string) -> Option<User>`); the session user is an input; `StartSession` only records the arguments passed to `createUserSession`.
- What `requireUserId` answers for a signed-out request (a redirect to the login page, as far as its name shows) is not part of this model: it is the single `AuthRequired` response.
- Password hashing and comparison, cookie signing and session expiry (what `remember` changes) belong to the unseen helpers; `UserStore.CreateUser` therefore takes no password.
- Ids of new users and notes are chosen by the persistence backend; they are the `newId` inputs, and the model does not claim they are distinct.
- Users.UserStore.CreateUser: requires that the email is not yet registered; the backend's refusal of a duplicate is not modelled, because the action never calls it in that case.
- Concurrent registrations with the same email: the check-then-create of the join action is modelled for one request at a time.
- Backend failures (an unreachable database) and exceptions thrown by the helpers are not modelled.
- `request.formData()` parsing, `json`/`redirect` response construction, async evaluation, the `meta` exports and the React page components with their focus effects.
