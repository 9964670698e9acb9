/**
 * The user store as the registration and login routes use it: rows of users,
 * looked up by exact email. Only the identity fields are modelled; the
 * password hash is held by the persistence backend.
 */
module Users {
  import opened Wrappers

  type UserId = string

  datatype User = User(id: UserId, email: string)

  /** No two rows share an email: the store's uniqueness constraint. */
  ghost predicate UniqueEmails(users: seq<User>) {
    forall i, j :: 0 <= i < j < |users| ==> users[i].email != users[j].email
  }

  /** `getUserByEmail`: the row whose email is exactly `email`, if any. */
  function FindByEmail(users: seq<User>, email: string): (r: Option<User>)
    ensures r.Some? ==> r.value in users && r.value.email == email
    ensures r.None? <==> forall u :: u in users ==> u.email != email
  {
    if users == [] then None
    else if users[0].email == email then Some(users[0])
    else FindByEmail(users[1..], email)
  }

  /** Appending a row leaves earlier matches alone and makes the new row findable by its email. */
  lemma {:induction false} FindAfterAppend(users: seq<User>, u: User, email: string)
    ensures FindByEmail(users + [u], email)
         == if FindByEmail(users, email).Some? then FindByEmail(users, email)
            else if u.email == email then Some(u)
            else None
  {
    if users == [] {
      assert users + [u] == [u];
    } else {
      assert (users + [u])[1..] == users[1..] + [u];
      FindAfterAppend(users[1..], u, email);
    }
  }

  /** Appending a row whose email is not yet registered keeps emails unique. */
  lemma AppendKeepsEmailsUnique(users: seq<User>, u: User)
    requires UniqueEmails(users)
    requires FindByEmail(users, u.email).None?
    ensures UniqueEmails(users + [u])
  {
    var s := users + [u];
    forall i, j | 0 <= i < j < |s|
      ensures s[i].email != s[j].email
    {
      if j == |users| {
        assert s[i] in users;
      }
    }
  }

  class UserStore {
    var users: seq<User>

    ghost predicate Valid()
      reads this
    {
      UniqueEmails(users)
    }

    constructor ()
      ensures Valid() && users == []
    {
      users := [];
    }

    /**
     * `createUser`: insert a row for `email` under the id the backend assigns.
     * The backend refuses a duplicate email; callers check for one first.
     */
    method CreateUser(email: string, id: UserId) returns (u: User)
      requires Valid()
      requires FindByEmail(users, email).None?
      modifies this
      ensures Valid()
      ensures u == User(id, email)
      ensures users == old(users) + [u]
    {
      u := User(id, email);
      AppendKeepsEmailsUnique(users, u);
      users := users + [u];
    }
  }
}
