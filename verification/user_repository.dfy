/** The user table and the queries `UserRepository` derives or inherits from `JpaRepository`. */
module UserRepository {
  import opened Wrappers
  import opened Domain

  /** No two stored users share an email (the column's uniqueness constraint). */
  ghost predicate EmailsUnique(rows: map<Id, User>) {
    forall a, b :: a in rows && b in rows && rows[a].email == rows[b].email ==> a == b
  }

  /** The rows of the user table and the next id its identity column hands out. */
  datatype UserTable = UserTable(rows: map<Id, User>, nextId: Id) {

    /** Ids are positive, below the counter and match their keys; emails are unique. */
    ghost predicate Valid() {
      && 1 <= nextId
      && (forall k :: k in rows ==> rows[k].id == k && 1 <= k < nextId)
      && EmailsUnique(rows)
    }
  }

  const Empty: UserTable := UserTable(map[], 1)

  /** Inherited `existsById`. */
  predicate ExistsById(t: UserTable, id: Id) {
    id in t.rows
  }

  /** Inherited `findById`. */
  function FindById(t: UserTable, id: Id): (r: Option<User>)
    ensures r.Some? <==> ExistsById(t, id)
    ensures r.Some? ==> r.value == t.rows[id]
  {
    if id in t.rows then Some(t.rows[id]) else None
  }

  /** `existsByEmail`. */
  predicate ExistsByEmail(t: UserTable, email: string) {
    exists k :: k in t.rows && t.rows[k].email == email
  }

  /** The first id in `[lo, hi)` whose user has `email`. */
  function ScanEmail(rows: map<Id, User>, email: string, lo: Id, hi: Id): (r: Option<Id>)
    ensures r.Some? ==> lo <= r.value < hi && r.value in rows && rows[r.value].email == email
    ensures r.Some? ==> forall k :: lo <= k < r.value && k in rows ==> rows[k].email != email
    ensures r.None? ==> forall k :: lo <= k < hi && k in rows ==> rows[k].email != email
    decreases hi - lo
  {
    if lo >= hi then None
    else if lo in rows && rows[lo].email == email then Some(lo)
    else ScanEmail(rows, email, lo + 1, hi)
  }

  /** `findByEmail`: the one user with that email, if any. */
  function FindByEmail(t: UserTable, email: string): (r: Option<User>)
    requires t.Valid()
    ensures r.Some? ==> r.value.id in t.rows && t.rows[r.value.id] == r.value && r.value.email == email
    ensures r.None? <==> !ExistsByEmail(t, email)
  {
    match ScanEmail(t.rows, email, 1, t.nextId)
    case Some(k) => Some(t.rows[k])
    case None => None
  }

  /** `save` of a new user: the identity column assigns `nextId`; both timestamps are `now`. */
  function Insert(t: UserTable, name: string, email: string, password: string, now: Time): (r: (UserTable, User))
    requires t.Valid() && !ExistsByEmail(t, email)
    ensures r.0.Valid()
    ensures r.1.id !in t.rows && r.1.id in r.0.rows && r.0.rows[r.1.id] == r.1
    ensures r.0.rows.Keys == t.rows.Keys + {r.1.id}
    ensures forall k :: k in t.rows ==> r.0.rows[k] == t.rows[k]
    ensures r.1 == User(r.1.id, name, email, password, now, now)
  {
    var u := User(t.nextId, name, email, password, now, now);
    (UserTable(t.rows[t.nextId := u], t.nextId + 1), u)
  }

  /** `save` of a stored user: its row is replaced and `updatedAt` becomes `now`. */
  function Update(t: UserTable, u: User, now: Time): (r: (UserTable, User))
    requires t.Valid() && u.id in t.rows
    requires forall k :: k in t.rows && k != u.id ==> t.rows[k].email != u.email
    ensures r.0.Valid()
    ensures r.0.rows.Keys == t.rows.Keys
    ensures r.0.rows[u.id] == r.1 == u.(updatedAt := now)
    ensures forall k :: k in t.rows && k != u.id ==> r.0.rows[k] == t.rows[k]
  {
    var saved := u.(updatedAt := now);
    (UserTable(t.rows[u.id := saved], t.nextId), saved)
  }

  /** Inherited `deleteById`: the row with that id goes, nothing else. */
  function DeleteById(t: UserTable, id: Id): (r: UserTable)
    requires t.Valid()
    ensures r.Valid()
    ensures !ExistsById(r, id)
    ensures r.rows.Keys == t.rows.Keys - {id}
    ensures forall k :: k in r.rows ==> r.rows[k] == t.rows[k]
  {
    UserTable(t.rows - {id}, t.nextId)
  }

  /** Under the uniqueness invariant the user `findByEmail` returns is the only one with that email. */
  lemma {:induction false} FindByEmailIsTheOnlyMatch(t: UserTable, email: string, k: Id)
    requires t.Valid() && k in t.rows && t.rows[k].email == email
    ensures FindByEmail(t, email) == Some(t.rows[k])
  {
    var r := FindByEmail(t, email);
    assert ExistsByEmail(t, email);
    assert r.Some?;
    assert r.value.id == k;
  }
}
