/** The note store: every note records the id of the user who owns it. */
module Notes {
  import opened Users

  type NoteId = string

  datatype Note = Note(id: NoteId, title: string, body: string, userId: UserId)

  /** The notes owned by `owner`, in store order. */
  function OwnedBy(notes: seq<Note>, owner: UserId): (r: seq<Note>)
    ensures |r| <= |notes|
    ensures forall n :: n in r ==> n in notes && n.userId == owner
    ensures forall n :: n in notes && n.userId == owner ==> n in r
  {
    if notes == [] then []
    else (if notes[0].userId == owner then [notes[0]] else []) + OwnedBy(notes[1..], owner)
  }

  /** Appending a note adds it to its owner's notes and to no one else's. */
  lemma {:induction false} OwnedByAppend(notes: seq<Note>, n: Note, owner: UserId)
    ensures OwnedBy(notes + [n], owner)
         == OwnedBy(notes, owner) + (if n.userId == owner then [n] else [])
  {
    if notes == [] {
      assert notes + [n] == [n];
    } else {
      var s := notes + [n];
      var first := if notes[0].userId == owner then [notes[0]] else [];
      var last := if n.userId == owner then [n] else [];
      assert s[0] == notes[0] && s[1..] == notes[1..] + [n];
      OwnedByAppend(notes[1..], n, owner);
      calc {
        OwnedBy(s, owner);
        first + OwnedBy(notes[1..] + [n], owner);
        first + (OwnedBy(notes[1..], owner) + last);
        (first + OwnedBy(notes[1..], owner)) + last;
        OwnedBy(notes, owner) + last;
      }
    }
  }

  class NoteStore {
    var notes: seq<Note>

    constructor ()
      ensures notes == []
    {
      notes := [];
    }

    /** `createNote`: append a note owned by `userId` under the id the backend assigns. */
    method CreateNote(title: string, body: string, userId: UserId, id: NoteId) returns (n: Note)
      modifies this
      ensures n == Note(id, title, body, userId)
      ensures notes == old(notes) + [n]
    {
      n := Note(id, title, body, userId);
      notes := notes + [n];
    }
  }
}
