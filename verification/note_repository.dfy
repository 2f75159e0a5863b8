/** The note table and the queries `NoteRepository` derives or inherits from `JpaRepository`. */
module NoteRepository {
  import opened Wrappers
  import opened Domain

  /** Whether each stored note is filed under its own id. */
  ghost predicate KeysMatchIds(rows: map<Id, Note>) {
    forall k :: k in rows ==> rows[k].id == k
  }

  /** The rows of the note table and the next id its identity column hands out. */
  datatype NoteTable = NoteTable(rows: map<Id, Note>, nextId: Id) {

    /** Ids are positive, below the counter, and match their keys. */
    ghost predicate Valid() {
      && 1 <= nextId
      && KeysMatchIds(rows)
      && forall k :: k in rows ==> 1 <= k < nextId
    }
  }

  const Empty: NoteTable := NoteTable(map[], 1)

  /** The flag and the timestamp of completion agree. */
  predicate CompletionConsistent(n: Note) {
    n.completed <==> n.completedAt.Some?
  }

  ghost predicate AllCompletionConsistent(t: NoteTable) {
    forall k :: k in t.rows ==> CompletionConsistent(t.rows[k])
  }

  /** Inherited `findById`. */
  function FindById(t: NoteTable, id: Id): (r: Option<Note>)
    ensures r.Some? <==> id in t.rows
    ensures r.Some? ==> r.value == t.rows[id]
  {
    if id in t.rows then Some(t.rows[id]) else None
  }

  /** `findByIdAndUserId`: the lookup scoped to one owner. */
  function FindByIdAndUserId(t: NoteTable, id: Id, userId: Id): (r: Option<Note>)
    ensures r.Some? <==> id in t.rows && t.rows[id].ownerId == userId
    ensures r.Some? ==> r == FindById(t, id)
  {
    match FindById(t, id)
    case Some(n) => if n.ownerId == userId then Some(n) else None
    case None => None
  }

  /** The notes of `userId` whose ids lie in `[lo, hi)`, in ascending id order. */
  function ScanOwned(rows: map<Id, Note>, userId: Id, lo: Id, hi: Id): (r: seq<Note>)
    requires KeysMatchIds(rows)
    ensures forall n :: n in r ==>
      n.id in rows && rows[n.id] == n && n.ownerId == userId && lo <= n.id < hi
    ensures forall k :: lo <= k < hi && k in rows && rows[k].ownerId == userId ==> rows[k] in r
    ensures forall i, j :: 0 <= i < j < |r| ==> r[i].id < r[j].id
    decreases hi - lo
  {
    if lo >= hi then []
    else
      var rest := ScanOwned(rows, userId, lo + 1, hi);
      if lo in rows && rows[lo].ownerId == userId then [rows[lo]] + rest else rest
  }

  /** `findAllByUserId`: every note of `userId` exactly once, ordered by id. */
  function FindAllByUserId(t: NoteTable, userId: Id): (r: seq<Note>)
    requires t.Valid()
    ensures forall n :: n in r ==> n.id in t.rows && t.rows[n.id] == n && n.ownerId == userId
    ensures forall k :: k in t.rows && t.rows[k].ownerId == userId ==> t.rows[k] in r
    ensures forall i, j :: 0 <= i < j < |r| ==> r[i].id != r[j].id
  {
    ScanOwned(t.rows, userId, 1, t.nextId)
  }

  /** `save` of a new note: the identity column assigns `nextId`; both timestamps are `now`. */
  function Insert(t: NoteTable, ownerId: Id, title: string, description: string, now: Time): (r: (NoteTable, Note))
    requires t.Valid()
    ensures r.0.Valid()
    ensures r.1.id !in t.rows && r.1.id in r.0.rows && r.0.rows[r.1.id] == r.1
    ensures r.0.rows.Keys == t.rows.Keys + {r.1.id}
    ensures forall k :: k in t.rows ==> r.0.rows[k] == t.rows[k]
    ensures r.1 == Note(r.1.id, ownerId, title, description, false, None, now, now)
  {
    var n := Note(t.nextId, ownerId, title, description, false, None, now, now);
    (NoteTable(t.rows[t.nextId := n], t.nextId + 1), n)
  }

  /** `save` of a note that is already stored: its row is replaced and `updatedAt` becomes `now`. */
  function Update(t: NoteTable, n: Note, now: Time): (r: (NoteTable, Note))
    requires t.Valid() && n.id in t.rows
    ensures r.0.Valid()
    ensures r.0.rows.Keys == t.rows.Keys
    ensures r.0.rows[n.id] == r.1 == n.(updatedAt := now)
    ensures forall k :: k in t.rows && k != n.id ==> r.0.rows[k] == t.rows[k]
  {
    var saved := n.(updatedAt := now);
    (NoteTable(t.rows[n.id := saved], t.nextId), saved)
  }

  /** Inherited `delete`: the row with that id goes, nothing else. */
  function Delete(t: NoteTable, id: Id): (r: NoteTable)
    requires t.Valid()
    ensures r.Valid()
    ensures r.rows.Keys == t.rows.Keys - {id}
    ensures forall k :: k in r.rows ==> r.rows[k] == t.rows[k]
  {
    NoteTable(t.rows - {id}, t.nextId)
  }

  /** `findAllByUserId` returns a note exactly when the scoped lookup finds it. */
  lemma FindAllAgreesWithScopedLookup(t: NoteTable, id: Id, userId: Id)
    requires t.Valid()
    ensures (exists n :: n in FindAllByUserId(t, userId) && n.id == id)
      <==> FindByIdAndUserId(t, id, userId).Some?
  {
    if FindByIdAndUserId(t, id, userId).Some? {
      assert t.rows[id] in FindAllByUserId(t, userId);
    }
  }

  /** A foreign note is visible to `findById` but not to the scoped lookup. */
  lemma ForeignNoteHiddenFromScopedLookup(t: NoteTable, id: Id, userId: Id)
    requires id in t.rows && t.rows[id].ownerId != userId
    ensures FindById(t, id).Some?
    ensures FindByIdAndUserId(t, id, userId).None?
  {
  }
}
