/** Values shared by every table of the account backend: identifiers, instants,
    the column names that a `save(update_fields=...)` call may list, the stored
    password, and the audit/status block that both the `User` model and the
    abstract `BaseModel` carry. */
module Records {

  datatype Option<+T> = None | Some(value: T)

  datatype Result<+T, +E> = Ok(value: T) | Err(error: E)

  /** Primary keys are UUIDs; the model needs them only as distinct values. */
  type Uuid = nat

  /** A wall-clock instant. The clock is never read: every operation that calls
      `timezone.now()` receives the instant as an input. */
  type Timestamp = int

  /** Column names of the `users` table, as they appear in `update_fields`. */
  datatype Field =
    | Email | Username | Password | FirstName | LastName | Phone | Avatar | Bio
    | CreatedAt | UpdatedAt | DeletedAt | CreatedBy | UpdatedBy | DeletedBy
    | IsDeleted | IsActive
  {
    /** The columns that `BaseModel` declares (and that `User` declares too). */
    predicate IsAudit() {
      CreatedAt? || UpdatedAt? || DeletedAt? || CreatedBy? || UpdatedBy? || DeletedBy?
      || IsDeleted? || IsActive?
    }
  }

  /** The stored password. Hashing is abstracted by an injective encoding: a usable
      password remembers which raw password it was set from; an unusable one
      (a social-only account) matches nothing. */
  datatype PasswordHash = Unusable | Usable(secret: string)

  /** `has_usable_password()` */
  predicate HasUsablePassword(p: PasswordHash) {
    p.Usable?
  }

  /** `check_password(raw)` */
  predicate CheckPassword(p: PasswordHash, raw: string) {
    p.Usable? && p.secret == raw
  }

  /** The value held in one column, so that "every other column is unchanged"
      can be said once for all columns. `Absent` is the value of a column the
      table does not have. */
  datatype Value =
    | Absent
    | Flag(b: bool)
    | MaybeInstant(t: Option<Timestamp>)
    | Ref(r: Option<Uuid>)
    | Chars(s: string)
    | MaybeText(o: Option<string>)
    | Secret(p: PasswordHash)

  /** Audit trail and soft-delete status. `created_at`/`updated_at` are `None` on
      an instance that has never been saved. Audit references are ids of other
      users, resolved by lookup, never owning links. */
  datatype Audit = Audit(
    createdAt: Option<Timestamp>,
    updatedAt: Option<Timestamp>,
    deletedAt: Option<Timestamp>,
    createdBy: Option<Uuid>,
    updatedBy: Option<Uuid>,
    deletedBy: Option<Uuid>,
    isDeleted: bool,
    isActive: bool)

  /** The record an unsaved instance starts with: active, not deleted, no audit. */
  const FreshAudit := Audit(None, None, None, None, None, None, false, true)

  function AuditColumn(a: Audit, f: Field): (v: Value)
    ensures f.IsAudit() <==> !v.Absent?
  {
    match f
    case CreatedAt => MaybeInstant(a.createdAt)
    case UpdatedAt => MaybeInstant(a.updatedAt)
    case DeletedAt => MaybeInstant(a.deletedAt)
    case CreatedBy => Ref(a.createdBy)
    case UpdatedBy => Ref(a.updatedBy)
    case DeletedBy => Ref(a.deletedBy)
    case IsDeleted => Flag(a.isDeleted)
    case IsActive => Flag(a.isActive)
    case _ => Absent
  }

  /** Two audit blocks that agree on every column are equal. */
  lemma {:induction false} AuditColumnsDetermine(a: Audit, b: Audit)
    requires forall f :: AuditColumn(a, f) == AuditColumn(b, f)
    ensures a == b
  {
    assert AuditColumn(a, CreatedAt) == AuditColumn(b, CreatedAt);
    assert AuditColumn(a, UpdatedAt) == AuditColumn(b, UpdatedAt);
    assert AuditColumn(a, DeletedAt) == AuditColumn(b, DeletedAt);
    assert AuditColumn(a, CreatedBy) == AuditColumn(b, CreatedBy);
    assert AuditColumn(a, UpdatedBy) == AuditColumn(b, UpdatedBy);
    assert AuditColumn(a, DeletedBy) == AuditColumn(b, DeletedBy);
    assert AuditColumn(a, IsDeleted) == AuditColumn(b, IsDeleted);
    assert AuditColumn(a, IsActive) == AuditColumn(b, IsActive);
  }

  /** The audit part of the stored row after an UPDATE that writes only `fields`
      from the in-memory instance `current` over the stored row `stored`. */
  function PersistAudit(stored: Audit, current: Audit, fields: set<Field>): (r: Audit)
    ensures forall f :: AuditColumn(r, f) == if f in fields then AuditColumn(current, f) else AuditColumn(stored, f)
  {
    var r := Audit(
      if CreatedAt in fields then current.createdAt else stored.createdAt,
      if UpdatedAt in fields then current.updatedAt else stored.updatedAt,
      if DeletedAt in fields then current.deletedAt else stored.deletedAt,
      if CreatedBy in fields then current.createdBy else stored.createdBy,
      if UpdatedBy in fields then current.updatedBy else stored.updatedBy,
      if DeletedBy in fields then current.deletedBy else stored.deletedBy,
      if IsDeleted in fields then current.isDeleted else stored.isDeleted,
      if IsActive in fields then current.isActive else stored.isActive);
    PersistAuditColumns(stored, current, fields, r);
    r
  }

  lemma {:induction false} PersistAuditColumns(stored: Audit, current: Audit, fields: set<Field>, r: Audit)
    requires r == Audit(
      if CreatedAt in fields then current.createdAt else stored.createdAt,
      if UpdatedAt in fields then current.updatedAt else stored.updatedAt,
      if DeletedAt in fields then current.deletedAt else stored.deletedAt,
      if CreatedBy in fields then current.createdBy else stored.createdBy,
      if UpdatedBy in fields then current.updatedBy else stored.updatedBy,
      if DeletedBy in fields then current.deletedBy else stored.deletedBy,
      if IsDeleted in fields then current.isDeleted else stored.isDeleted,
      if IsActive in fields then current.isActive else stored.isActive)
    ensures forall f :: AuditColumn(r, f) == if f in fields then AuditColumn(current, f) else AuditColumn(stored, f)
  {
    forall f ensures AuditColumn(r, f) == if f in fields then AuditColumn(current, f) else AuditColumn(stored, f) {
      match f
      case CreatedAt => case UpdatedAt => case DeletedAt => case CreatedBy =>
      case UpdatedBy => case DeletedBy => case IsDeleted => case IsActive =>
      case _ =>
    }
  }

  /** The columns that `soft_delete` lists in `update_fields`. */
  const SoftDeleteFields: set<Field> := {IsActive, IsDeleted, DeletedAt, DeletedBy}

  /** The columns that `restore` lists in `update_fields`. */
  const RestoreFields: set<Field> := {IsActive, IsDeleted, DeletedAt, DeletedBy, UpdatedBy}

  /** The in-memory assignments of `soft_delete(user)`, identical in `User` and
      `BaseModel`: inactive, deleted, stamped with `now`, and the deleter recorded
      only when one is given. Nothing else is assigned. */
  function SoftDeleted(a: Audit, now: Timestamp, actor: Option<Uuid>): (r: Audit)
    ensures !r.isActive && r.isDeleted && r.deletedAt == Some(now)
    ensures r.deletedBy == (if actor.Some? then actor else a.deletedBy)
    ensures forall f :: f !in SoftDeleteFields ==> AuditColumn(r, f) == AuditColumn(a, f)
  {
    a.(isActive := false, isDeleted := true, deletedAt := Some(now),
       deletedBy := if actor.Some? then actor else a.deletedBy)
  }

  /** The in-memory assignments of `restore(user)`, identical in `User` and
      `BaseModel`: active again, the deletion stamp and the deleter cleared
      whether or not a user is given, the restorer recorded as updater only when
      one is given. */
  function Restored(a: Audit, actor: Option<Uuid>): (r: Audit)
    ensures r.isActive && !r.isDeleted && r.deletedAt.None? && r.deletedBy.None?
    ensures r.updatedBy == (if actor.Some? then actor else a.updatedBy)
    ensures forall f :: f !in RestoreFields ==> AuditColumn(r, f) == AuditColumn(a, f)
  {
    a.(isActive := true, isDeleted := false, deletedAt := None, deletedBy := None,
       updatedBy := if actor.Some? then actor else a.updatedBy)
  }

  /** `soft_delete` then `restore` leaves the record live with no trace of the
      deletion, and every column other than `updated_by` as it was before the
      deletion. */
  lemma {:induction false} SoftDeleteThenRestore(a: Audit, now: Timestamp, deleter: Option<Uuid>, restorer: Option<Uuid>)
    ensures var r := Restored(SoftDeleted(a, now, deleter), restorer);
      && r.isActive && !r.isDeleted && r.deletedAt.None? && r.deletedBy.None?
      && (forall f :: f !in RestoreFields ==> AuditColumn(r, f) == AuditColumn(a, f))
      && r.updatedBy == (if restorer.Some? then restorer else a.updatedBy)
  {
    var d := SoftDeleted(a, now, deleter);
    var r := Restored(d, restorer);
    forall f | f !in RestoreFields
      ensures AuditColumn(r, f) == AuditColumn(a, f)
    {
      assert f !in SoftDeleteFields;
    }
  }
}
