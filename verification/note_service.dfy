/** The business rules of `NoteService`: transitions of the note table for one caller. */
module NoteService {
  import opened Wrappers
  import opened Text
  import opened Domain
  import opened NoteRepository
  import UserRepository

  /** `NoteResponseDTO`: what a client sees of a note; the owner is not part of it. */
  datatype NoteView = NoteView(
    id: Id,
    title: string,
    description: string,
    completed: bool,
    completedAt: Option<Time>,
    createdAt: Time,
    updatedAt: Time)

  function NoteNotFound(noteId: Id): AppError {
    ResourceNotFound("Note not found with id: " + DecimalString(noteId))
  }

  const DeniedAccess := "You do not have permission to access this note."
  const DeniedUpdate := "You do not have permission to update this note."
  const DeniedDelete := "You do not have permission to delete this note."
  const DeniedComplete := "You do not have permission to complete this note."
  const DeniedModify := "You do not have permission to modify this note."

  /** `convertToResponseDTO`. */
  function ToView(n: Note): NoteView {
    NoteView(n.id, n.title, n.description, n.completed, n.completedAt, n.createdAt, n.updatedAt)
  }

  /** The view hides the owner: notes that differ only in their owner look the same,
      and otherwise the view determines the note. */
  lemma ViewHidesOnlyOwner(a: Note, b: Note)
    ensures ToView(a) == ToView(b) <==> a.(ownerId := b.ownerId) == b
  {
  }

  /** `getAllNotesByUserId`: the caller's notes, each converted. */
  function GetAllNotesByUserId(t: NoteTable, userId: Id): (r: seq<NoteView>)
    requires t.Valid()
    ensures forall v :: v in r ==> v.id in t.rows && t.rows[v.id].ownerId == userId && v == ToView(t.rows[v.id])
    ensures forall k :: k in t.rows && t.rows[k].ownerId == userId ==> ToView(t.rows[k]) in r
    ensures forall i, j :: 0 <= i < j < |r| ==> r[i].id != r[j].id
  {
    var notes := FindAllByUserId(t, userId);
    var r := seq(|notes|, i requires 0 <= i < |notes| => ToView(notes[i]));
    ViewsOfOwnedNotes(t, userId, notes, r);
    r
  }

  lemma ViewsOfOwnedNotes(t: NoteTable, userId: Id, notes: seq<Note>, r: seq<NoteView>)
    requires t.Valid()
    requires notes == FindAllByUserId(t, userId)
    requires |r| == |notes| && forall i :: 0 <= i < |r| ==> r[i] == ToView(notes[i])
    ensures forall v :: v in r ==> v.id in t.rows && t.rows[v.id].ownerId == userId && v == ToView(t.rows[v.id])
    ensures forall k :: k in t.rows && t.rows[k].ownerId == userId ==> ToView(t.rows[k]) in r
    ensures forall i, j :: 0 <= i < j < |r| ==> r[i].id != r[j].id
  {
    forall v | v in r
      ensures v.id in t.rows && t.rows[v.id].ownerId == userId && v == ToView(t.rows[v.id])
    {
      var i :| 0 <= i < |r| && r[i] == v;
      assert notes[i] in notes;
    }
    forall k | k in t.rows && t.rows[k].ownerId == userId
      ensures ToView(t.rows[k]) in r
    {
      var i :| 0 <= i < |notes| && notes[i] == t.rows[k];
      assert r[i] == ToView(t.rows[k]);
    }
  }

  /** `getNoteById`: the scoped lookup, then an owner check that the scoping makes unreachable. */
  function GetNoteById(t: NoteTable, noteId: Id, userId: Id): (r: Result<NoteView, AppError>)
    ensures r.Success? <==> noteId in t.rows && t.rows[noteId].ownerId == userId
    ensures r.Success? ==> r.value == ToView(t.rows[noteId])
    ensures r.Failure? ==> r.error == NoteNotFound(noteId)
  {
    match FindByIdAndUserId(t, noteId, userId)
    case None => Failure(NoteNotFound(noteId))
    case Some(n) =>
      if n.ownerId != userId then Failure(UnauthorizedAccess(DeniedAccess))
      else Success(ToView(n))
  }

  /** The lookup shared by update, delete, complete and uncomplete: by id alone, then the owner
      comparison, so an absent id is NotFound and a foreign note is Forbidden. */
  function FindOwned(t: NoteTable, noteId: Id, userId: Id, denied: string): (r: Result<Note, AppError>)
    ensures noteId !in t.rows ==> r == Failure(NoteNotFound(noteId))
    ensures noteId in t.rows && t.rows[noteId].ownerId != userId ==> r == Failure(UnauthorizedAccess(denied))
    ensures noteId in t.rows && t.rows[noteId].ownerId == userId ==> r == Success(t.rows[noteId])
  {
    match FindById(t, noteId)
    case None => Failure(NoteNotFound(noteId))
    case Some(n) =>
      if n.ownerId != userId then Failure(UnauthorizedAccess(denied))
      else Success(n)
  }

  /** `createNote`: the owner must exist; the new note is open and belongs to the caller. */
  function CreateNote(users: UserRepository.UserTable, t: NoteTable, title: string, description: string,
                      userId: Id, now: Time): (r: Result<(NoteTable, NoteView), AppError>)
    requires users.Valid() && t.Valid()
    ensures r.Failure? <==> !UserRepository.ExistsById(users, userId)
    ensures r.Failure? ==> r.error == ResourceNotFound("User not found with id: " + DecimalString(userId))
    ensures r.Success? ==>
      var (t', v) := r.value;
      && t'.Valid()
      && v.id !in t.rows && t'.rows.Keys == t.rows.Keys + {v.id}
      && t'.rows[v.id] == Note(v.id, userId, title, description, false, None, now, now)
      && v == ToView(t'.rows[v.id])
      && forall k :: k in t.rows ==> t'.rows[k] == t.rows[k]
  {
    match UserRepository.FindById(users, userId)
    case None => Failure(ResourceNotFound("User not found with id: " + DecimalString(userId)))
    case Some(owner) =>
      var (t', saved) := Insert(t, owner.id, title, description, now);
      Success((t', ToView(saved)))
  }

  /** `updateNote`: only the title, the description and the update time change. */
  function UpdateNote(t: NoteTable, noteId: Id, title: string, description: string,
                      userId: Id, now: Time): (r: Result<(NoteTable, NoteView), AppError>)
    requires t.Valid()
    ensures noteId !in t.rows ==> r == Failure(NoteNotFound(noteId))
    ensures noteId in t.rows && t.rows[noteId].ownerId != userId ==> r == Failure(UnauthorizedAccess(DeniedUpdate))
    ensures r.Success? <==> noteId in t.rows && t.rows[noteId].ownerId == userId
    ensures r.Success? ==>
      var (t', v) := r.value;
      && t'.Valid()
      && t'.rows.Keys == t.rows.Keys
      && (forall k :: k in t.rows && k != noteId ==> t'.rows[k] == t.rows[k])
      && var (old_, new_) := (t.rows[noteId], t'.rows[noteId]);
      && new_.title == title && new_.description == description && new_.updatedAt == now
      && new_.id == old_.id && new_.ownerId == old_.ownerId && new_.createdAt == old_.createdAt
      && new_.completed == old_.completed && new_.completedAt == old_.completedAt
      && v == ToView(new_)
  {
    var n :- FindOwned(t, noteId, userId, DeniedUpdate);
    var (t', saved) := Update(t, n.(title := title, description := description), now);
    Success((t', ToView(saved)))
  }

  /** `deleteNote`: the same checks, then exactly that note is removed. */
  function DeleteNote(t: NoteTable, noteId: Id, userId: Id): (r: Result<NoteTable, AppError>)
    requires t.Valid()
    ensures noteId !in t.rows ==> r == Failure(NoteNotFound(noteId))
    ensures noteId in t.rows && t.rows[noteId].ownerId != userId ==> r == Failure(UnauthorizedAccess(DeniedDelete))
    ensures r.Success? <==> noteId in t.rows && t.rows[noteId].ownerId == userId
    ensures r.Success? ==>
      && r.value.Valid()
      && r.value.rows.Keys == t.rows.Keys - {noteId}
      && forall k :: k in r.value.rows ==> r.value.rows[k] == t.rows[k]
  {
    var n :- FindOwned(t, noteId, userId, DeniedDelete);
    Success(Delete(t, n.id))
  }

  /** `completeNote`: the note becomes completed at the supplied time `now`. */
  function CompleteNote(t: NoteTable, noteId: Id, userId: Id, now: Time): (r: Result<(NoteTable, NoteView), AppError>)
    requires t.Valid()
    ensures noteId !in t.rows ==> r == Failure(NoteNotFound(noteId))
    ensures noteId in t.rows && t.rows[noteId].ownerId != userId ==> r == Failure(UnauthorizedAccess(DeniedComplete))
    ensures r.Success? <==> noteId in t.rows && t.rows[noteId].ownerId == userId
    ensures r.Success? ==>
      var (t', v) := r.value;
      && t'.Valid()
      && t'.rows.Keys == t.rows.Keys
      && (forall k :: k in t.rows && k != noteId ==> t'.rows[k] == t.rows[k])
      && t'.rows[noteId] == t.rows[noteId].(completed := true, completedAt := Some(now), updatedAt := now)
      && v == ToView(t'.rows[noteId])
  {
    var n :- FindOwned(t, noteId, userId, DeniedComplete);
    var (t', saved) := Update(t, n.(completed := true, completedAt := Some(now)), now);
    Success((t', ToView(saved)))
  }

  /** `uncompleteNote`: the note becomes open and loses its completion time. */
  function UncompleteNote(t: NoteTable, noteId: Id, userId: Id, now: Time): (r: Result<(NoteTable, NoteView), AppError>)
    requires t.Valid()
    ensures noteId !in t.rows ==> r == Failure(NoteNotFound(noteId))
    ensures noteId in t.rows && t.rows[noteId].ownerId != userId ==> r == Failure(UnauthorizedAccess(DeniedModify))
    ensures r.Success? <==> noteId in t.rows && t.rows[noteId].ownerId == userId
    ensures r.Success? ==>
      var (t', v) := r.value;
      && t'.Valid()
      && t'.rows.Keys == t.rows.Keys
      && (forall k :: k in t.rows && k != noteId ==> t'.rows[k] == t.rows[k])
      && t'.rows[noteId] == t.rows[noteId].(completed := false, completedAt := None, updatedAt := now)
      && v == ToView(t'.rows[noteId])
  {
    var n :- FindOwned(t, noteId, userId, DeniedModify);
    var (t', saved) := Update(t, n.(completed := false, completedAt := None), now);
    Success((t', ToView(saved)))
  }

  /** `getNoteById` never answers Forbidden: a foreign note is reported as not found. */
  lemma GetNoteByIdNeverForbidden(t: NoteTable, noteId: Id, userId: Id)
    ensures !(GetNoteById(t, noteId, userId).Failure? && GetNoteById(t, noteId, userId).error.UnauthorizedAccess?)
    ensures noteId in t.rows && t.rows[noteId].ownerId != userId ==>
      GetNoteById(t, noteId, userId) == Failure(NoteNotFound(noteId))
  {
  }

  /** The two lookup policies differ exactly on foreign notes: `getNoteById` says NotFound
      where `updateNote` says Forbidden. */
  lemma LookupPoliciesDisagreeOnForeignNotes(t: NoteTable, noteId: Id, userId: Id, title: string,
                                             description: string, now: Time)
    requires t.Valid()
    requires noteId in t.rows && t.rows[noteId].ownerId != userId
    ensures GetNoteById(t, noteId, userId).error.ResourceNotFound?
    ensures UpdateNote(t, noteId, title, description, userId, now).error.UnauthorizedAccess?
  {
  }

  /** Every note mutation by `userId` leaves the notes of every other owner as they were. */
  lemma MutationsSpareOtherOwners(t: NoteTable, noteId: Id, userId: Id, title: string,
                                  description: string, now: Time, k: Id)
    requires t.Valid()
    requires k in t.rows && t.rows[k].ownerId != userId
    ensures UpdateNote(t, noteId, title, description, userId, now).Success? ==>
      UpdateNote(t, noteId, title, description, userId, now).value.0.rows[k] == t.rows[k]
    ensures DeleteNote(t, noteId, userId).Success? ==> DeleteNote(t, noteId, userId).value.rows[k] == t.rows[k]
    ensures CompleteNote(t, noteId, userId, now).Success? ==>
      CompleteNote(t, noteId, userId, now).value.0.rows[k] == t.rows[k]
    ensures UncompleteNote(t, noteId, userId, now).Success? ==>
      UncompleteNote(t, noteId, userId, now).value.0.rows[k] == t.rows[k]
  {
  }

  /** Completing again keeps the note completed, now stamped with the later time. */
  lemma {:induction false} CompleteTwice(t: NoteTable, noteId: Id, userId: Id, now1: Time, now2: Time)
    requires t.Valid()
    requires CompleteNote(t, noteId, userId, now1).Success?
    ensures var t1 := CompleteNote(t, noteId, userId, now1).value.0;
      var r2 := CompleteNote(t1, noteId, userId, now2);
      && r2.Success?
      && r2.value.0.rows[noteId].completed
      && r2.value.0.rows[noteId].completedAt == Some(now2)
  {
    var t1 := CompleteNote(t, noteId, userId, now1).value.0;
    assert t1.rows[noteId].ownerId == userId;
  }

  /** Uncompleting twice at the same time has the effect of uncompleting once. */
  lemma {:induction false} UncompleteIdempotent(t: NoteTable, noteId: Id, userId: Id, now: Time)
    requires t.Valid()
    ensures var r1 := UncompleteNote(t, noteId, userId, now);
      r1.Success? ==> UncompleteNote(r1.value.0, noteId, userId, now) == r1
  {
    var r1 := UncompleteNote(t, noteId, userId, now);
    if r1.Success? {
      var t1 := r1.value.0;
      assert t1.rows[noteId].ownerId == userId;
      var r2 := UncompleteNote(t1, noteId, userId, now);
      assert r2.value.0.rows == t1.rows;
    }
  }

  /** Every note operation keeps `completed` and `completedAt` in agreement. */
  lemma {:induction false} OperationsKeepCompletionConsistent(users: UserRepository.UserTable, t: NoteTable,
                                                 noteId: Id, userId: Id, title: string,
                                                 description: string, now: Time)
    requires users.Valid() && t.Valid() && AllCompletionConsistent(t)
    ensures var r := CreateNote(users, t, title, description, userId, now);
      r.Success? ==> AllCompletionConsistent(r.value.0)
    ensures var r := UpdateNote(t, noteId, title, description, userId, now);
      r.Success? ==> AllCompletionConsistent(r.value.0)
    ensures var r := DeleteNote(t, noteId, userId);
      r.Success? ==> AllCompletionConsistent(r.value)
    ensures var r := CompleteNote(t, noteId, userId, now);
      r.Success? ==> AllCompletionConsistent(r.value.0)
    ensures var r := UncompleteNote(t, noteId, userId, now);
      r.Success? ==> AllCompletionConsistent(r.value.0)
  {
    var c := CreateNote(users, t, title, description, userId, now);
    if c.Success? {
      var t' := c.value.0;
      forall k | k in t'.rows ensures CompletionConsistent(t'.rows[k]) {
        if k !in t.rows {
          assert k == c.value.1.id;
        }
      }
    }
  }
}
