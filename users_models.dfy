/** The custom `User` model: email as the login name, an optional username,
    profile fields, and the same audit/soft-delete block as `BaseModel`, but
    with its own rule for `created_by`/`updated_by` (based on `_state.adding`). */
module UserModels {
  import opened Records
  import opened Orm
  import opened Text
  import CommonModels

  /** One stored row of the `users` table (the columns the backend touches). */
  datatype UserRow = UserRow(
    email: string,
    username: Option<string>,
    password: PasswordHash,
    firstName: string,
    lastName: string,
    phone: string,
    avatar: Option<string>,
    bio: string,
    audit: Audit)

  function Column(u: UserRow, f: Field): (v: Value)
    ensures f.IsAudit() ==> v == AuditColumn(u.audit, f)
    ensures !v.Absent?
  {
    match f
    case Email => Chars(u.email)
    case Username => MaybeText(u.username)
    case Password => Secret(u.password)
    case FirstName => Chars(u.firstName)
    case LastName => Chars(u.lastName)
    case Phone => Chars(u.phone)
    case Avatar => MaybeText(u.avatar)
    case Bio => Chars(u.bio)
    case _ => AuditColumn(u.audit, f)
  }

  /** Two rows that agree on every column are the same row. */
  lemma {:induction false} ColumnsDetermine(a: UserRow, b: UserRow)
    requires forall f :: Column(a, f) == Column(b, f)
    ensures a == b
  {
    assert Column(a, Email) == Column(b, Email);
    assert Column(a, Username) == Column(b, Username);
    assert Column(a, Password) == Column(b, Password);
    assert Column(a, FirstName) == Column(b, FirstName);
    assert Column(a, LastName) == Column(b, LastName);
    assert Column(a, Phone) == Column(b, Phone);
    assert Column(a, Avatar) == Column(b, Avatar);
    assert Column(a, Bio) == Column(b, Bio);
    forall f: Field | f.IsAudit() ensures AuditColumn(a.audit, f) == AuditColumn(b.audit, f) {
      assert Column(a, f) == Column(b, f);
    }
    forall f: Field | !f.IsAudit() ensures AuditColumn(a.audit, f) == AuditColumn(b.audit, f) {
    }
    AuditColumnsDetermine(a.audit, b.audit);
  }

  /** The stored row after an UPDATE of exactly `fields` from `current`. */
  function Persist(stored: UserRow, current: UserRow, fields: set<Field>): (r: UserRow)
    ensures forall f :: Column(r, f) == if f in fields then Column(current, f) else Column(stored, f)
  {
    var r := UserRow(
      if Email in fields then current.email else stored.email,
      if Username in fields then current.username else stored.username,
      if Password in fields then current.password else stored.password,
      if FirstName in fields then current.firstName else stored.firstName,
      if LastName in fields then current.lastName else stored.lastName,
      if Phone in fields then current.phone else stored.phone,
      if Avatar in fields then current.avatar else stored.avatar,
      if Bio in fields then current.bio else stored.bio,
      PersistAudit(stored.audit, current.audit, fields));
    PersistColumns(stored, current, fields, r);
    r
  }

  lemma {:induction false} PersistColumns(stored: UserRow, current: UserRow, fields: set<Field>, r: UserRow)
    requires r == UserRow(
      if Email in fields then current.email else stored.email,
      if Username in fields then current.username else stored.username,
      if Password in fields then current.password else stored.password,
      if FirstName in fields then current.firstName else stored.firstName,
      if LastName in fields then current.lastName else stored.lastName,
      if Phone in fields then current.phone else stored.phone,
      if Avatar in fields then current.avatar else stored.avatar,
      if Bio in fields then current.bio else stored.bio,
      PersistAudit(stored.audit, current.audit, fields))
    ensures forall f :: Column(r, f) == if f in fields then Column(current, f) else Column(stored, f)
  {
    forall f ensures Column(r, f) == if f in fields then Column(current, f) else Column(stored, f) {
      match f
      case Email => case Username => case Password => case FirstName =>
      case LastName => case Phone => case Avatar => case Bio =>
      case _ => assert f.IsAudit();
    }
  }

  /** The timestamps written by the ORM, on the audit block of a user row. */
  function StampRow(u: UserRow, now: Timestamp, w: Write): (r: UserRow)
    ensures r.audit == Stamp(u.audit, now, w)
    ensures forall f :: f != CreatedAt && f != UpdatedAt ==> Column(r, f) == Column(u, f)
  {
    u.(audit := Stamp(u.audit, now, w))
  }

  /** The in-memory audit assignments of `User.save(user)`: a creating save
      records the creator only, any later save records the updater only. */
  function SaveAudit(a: Audit, adding: bool, user: Option<Uuid>): (r: Audit)
    ensures r.createdBy == (if adding && user.Some? then user else a.createdBy)
    ensures r.updatedBy == (if !adding && user.Some? then user else a.updatedBy)
    ensures forall f :: f != CreatedBy && f != UpdatedBy ==> AuditColumn(r, f) == AuditColumn(a, f)
  {
    a.(createdBy := if adding && user.Some? then user else a.createdBy,
       updatedBy := if !adding && user.Some? then user else a.updatedBy)
  }

  /** Each save records exactly one of the two references when a user is given,
      and neither when none is. */
  lemma {:induction false} SaveRecordsOneReference(a: Audit, adding: bool, user: Uuid)
    ensures adding ==> SaveAudit(a, adding, Some(user)) == a.(createdBy := Some(user))
    ensures !adding ==> SaveAudit(a, adding, Some(user)) == a.(updatedBy := Some(user))
    ensures SaveAudit(a, adding, None) == a
  {
    AuditColumnsDetermine(SaveAudit(a, adding, None), a);
    if adding {
      AuditColumnsDetermine(SaveAudit(a, adding, Some(user)), a.(createdBy := Some(user)));
    } else {
      AuditColumnsDetermine(SaveAudit(a, adding, Some(user)), a.(updatedBy := Some(user)));
    }
  }

  /** On the creating save of a record that has no creator yet, `User` records
      the user as creator and leaves the updater alone, while `BaseModel`
      records the user as updater and (its primary key being already set) not as
      creator: the two audit rules are opposite. */
  lemma {:induction false} CreatingSaveDiffersFromBaseModel(a: Audit, user: Uuid)
    requires a.createdBy.None? && a.updatedBy.None?
    ensures SaveAudit(a, true, Some(user)).createdBy == Some(user)
    ensures SaveAudit(a, true, Some(user)).updatedBy.None?
    ensures CommonModels.SaveAudit(a, true, Some(user)).createdBy.None?
    ensures CommonModels.SaveAudit(a, true, Some(user)).updatedBy == Some(user)
  {
  }

  /** `full_name`: `"first last"` without surrounding whitespace, or the email
      when that leaves nothing. */
  function FullName(u: UserRow): (r: string)
    ensures Blank(u.firstName + " " + u.lastName) ==> r == u.email
    ensures !Blank(u.firstName + " " + u.lastName) ==> r == Strip(u.firstName + " " + u.lastName) && r != []
    ensures r == u.email || (r != [] && Trimmed(r))
  {
    var joined := u.firstName + " " + u.lastName;
    var name := Strip(joined);
    if name != [] then name else u.email
  }

  /** Both names set and already trimmed: the full name is exactly "first last". */
  lemma {:induction false} FullNameOfTrimmedNames(u: UserRow)
    requires u.firstName != [] && !IsSpace(u.firstName[0])
    requires u.lastName != [] && !IsSpace(u.lastName[|u.lastName| - 1])
    ensures FullName(u) == u.firstName + " " + u.lastName
  {
    var s := u.firstName + " " + u.lastName;
    assert s[0] == u.firstName[0];
    assert s[|s| - 1] == u.lastName[|u.lastName| - 1];
    StripKeepsTrimmed(s);
  }

  /** Only a first name, trimmed: the full name is the first name alone. */
  lemma {:induction false} FullNameOfFirstNameOnly(u: UserRow)
    requires u.firstName != [] && !IsSpace(u.firstName[0]) && !IsSpace(u.firstName[|u.firstName| - 1])
    requires u.lastName == []
    ensures FullName(u) == u.firstName
  {
    var s := u.firstName + " " + u.lastName;
    assert s == u.firstName + " ";
    assert StripLeft(s) == s;
    assert s[..|s| - 1] == u.firstName;
    assert StripRight(u.firstName) == u.firstName;
    assert StripRight(s) == u.firstName;
  }

  /** No names at all: the full name is the email. */
  lemma {:induction false} FullNameOfNoNames(u: UserRow)
    requires u.firstName == [] && u.lastName == []
    ensures FullName(u) == u.email
  {
    var joined := u.firstName + " " + u.lastName;
    assert joined == " ";
    assert IsSpace(joined[0]);
    assert Blank(joined);
  }

  /** The `users` table: primary key to stored row. */
  class UserTable {
    var rows: map<Uuid, UserRow>

    constructor ()
      ensures rows == map[]
    {
      rows := map[];
    }
  }

  class User {
    /** The UUID primary key, assigned by its default at construction. */
    const id: Uuid
    var email: string
    var username: Option<string>
    var password: PasswordHash
    var firstName: string
    var lastName: string
    var phone: string
    var avatar: Option<string>
    var bio: string
    var createdAt: Option<Timestamp>
    var updatedAt: Option<Timestamp>
    var deletedAt: Option<Timestamp>
    var createdBy: Option<Uuid>
    var updatedBy: Option<Uuid>
    var deletedBy: Option<Uuid>
    var isDeleted: bool
    var isActive: bool
    /** Django's `_state.adding`: true until the instance is first written. */
    var adding: bool

    function AuditRow(): Audit
      reads this
    {
      Audit(createdAt, updatedAt, deletedAt, createdBy, updatedBy, deletedBy, isDeleted, isActive)
    }

    /** The row this instance would write in a full save. */
    function Snapshot(): UserRow
      reads this
    {
      UserRow(email, username, password, firstName, lastName, phone, avatar, bio, AuditRow())
    }

    /** A new, unsaved instance with the given attributes and the defaults for
        the rest: no avatar, empty bio, active, no audit trail. */
    constructor (id: Uuid, email: string, username: Option<string>, password: PasswordHash,
                 firstName: string, lastName: string, phone: string)
      ensures this.id == id && adding
      ensures Snapshot() == UserRow(email, username, password, firstName, lastName, phone, None, [], FreshAudit)
    {
      this.id := id;
      this.email, this.username, this.password := email, username, password;
      this.firstName, this.lastName, this.phone := firstName, lastName, phone;
      avatar, bio := None, [];
      createdAt, updatedAt, deletedAt := None, None, None;
      createdBy, updatedBy, deletedBy := None, None, None;
      isDeleted, isActive := false, true;
      adding := true;
    }

    method AssignAudit(a: Audit)
      modifies this
      ensures AuditRow() == a
      ensures email == old(email) && username == old(username) && password == old(password)
      ensures firstName == old(firstName) && lastName == old(lastName) && phone == old(phone)
      ensures avatar == old(avatar) && bio == old(bio) && adding == old(adding)
    {
      createdAt, updatedAt, deletedAt := a.createdAt, a.updatedAt, a.deletedAt;
      createdBy, updatedBy, deletedBy := a.createdBy, a.updatedBy, a.deletedBy;
      isDeleted, isActive := a.isDeleted, a.isActive;
    }

    /** `save(user=..., update_fields=...)`: the audit assignments, then the
        ORM write planned from `_state.adding` and the stored rows. */
    method Save(db: UserTable, user: Option<Uuid>, updateFields: Option<set<Field>>, now: Timestamp)
      returns (ok: bool)
      modifies this, db
      ensures var w := Plan(old(adding), id in old(db.rows), updateFields);
              && Snapshot() == StampRow(old(Snapshot()).(audit := SaveAudit(old(AuditRow()), old(adding), user)), now, w)
              && db.rows == Apply(old(db.rows), id, w, Snapshot(), Persist)
              && adding == StillAdding(old(adding), w)
              && ok == !w.Reject?
    {
      ghost var audited := old(Snapshot()).(audit := SaveAudit(AuditRow(), adding, user));
      if adding && user.Some? {
        createdBy := user;
      }
      if user.Some? && !adding {
        updatedBy := user;
      }
      assert Snapshot() == audited;
      // Model.save
      var w := Plan(adding, id in db.rows, updateFields);
      AssignAudit(Stamp(AuditRow(), now, w));
      assert Snapshot() == StampRow(audited, now, w);
      db.rows := Apply(db.rows, id, w, Snapshot(), Persist);
      adding := StillAdding(adding, w);
      ok := !w.Reject?;
    }

    /** `soft_delete(user)` */
    method SoftDelete(db: UserTable, user: Option<Uuid>, now: Timestamp)
      returns (ok: bool)
      modifies this, db
      ensures var w := Plan(old(adding), id in old(db.rows), Some(SoftDeleteFields));
              && Snapshot() == StampRow(old(Snapshot()).(audit := SoftDeleted(old(AuditRow()), now, user)), now, w)
              && db.rows == Apply(old(db.rows), id, w, Snapshot(), Persist)
              && adding == StillAdding(old(adding), w)
              && ok == !w.Reject?
    {
      isActive := false;
      isDeleted := true;
      deletedAt := Some(now);
      if user.Some? {
        deletedBy := user;
      }
      assert Snapshot() == old(Snapshot()).(audit := SoftDeleted(old(AuditRow()), now, user));
      ok := Save(db, None, Some(SoftDeleteFields), now);
    }

    /** `restore(user)` */
    method Restore(db: UserTable, user: Option<Uuid>, now: Timestamp)
      returns (ok: bool)
      modifies this, db
      ensures var w := Plan(old(adding), id in old(db.rows), Some(RestoreFields));
              && Snapshot() == StampRow(old(Snapshot()).(audit := Restored(old(AuditRow()), user)), now, w)
              && db.rows == Apply(old(db.rows), id, w, Snapshot(), Persist)
              && adding == StillAdding(old(adding), w)
              && ok == !w.Reject?
    {
      ghost var restored := old(Snapshot()).(audit := Restored(old(AuditRow()), user));
      isActive, isDeleted, deletedAt, deletedBy := true, false, None, None;
      if user.Some? {
        updatedBy := user;
      }
      assert Snapshot() == restored;
      SaveRecordsOneReference(AuditRow(), adding, 0);
      ok := Save(db, None, Some(RestoreFields), now);
    }
  }

  /** Every email stored in the table, soft-deleted rows included: the column
      the database's unique index on `email` ranges over. */
  function StoredEmails(rows: map<Uuid, UserRow>): (r: set<string>)
    ensures forall k | k in rows :: rows[k].email in r
    ensures forall e | e in r :: exists k | k in rows :: rows[k].email == e
  {
    set k | k in rows :: rows[k].email
  }

  /** `User.objects.create_user(...)`. The custom manager's source is not part
      of this model; it is taken to do what Django's standard user manager
      does: build the instance with the given attributes, set the password,
      and insert it. The INSERT fails (`IntegrityError`) when the email is
      already stored, by any row, since the column is unique. */
  method ManagerCreateUser(db: UserTable, id: Uuid, email: string, username: Option<string>, password: string,
                           firstName: string, lastName: string, phone: string, now: Timestamp)
    returns (user: User, inserted: bool)
    requires id !in db.rows
    modifies db
    ensures fresh(user) && user.id == id
    ensures inserted <==> email !in StoredEmails(old(db.rows))
    ensures !inserted ==> db.rows == old(db.rows)
    ensures inserted ==>
              && !user.adding
              && user.Snapshot() == UserRow(email, username, Usable(password), firstName, lastName, phone, None, [],
                                            FreshAudit.(createdAt := Some(now), updatedAt := Some(now)))
              && db.rows == old(db.rows)[id := user.Snapshot()]
  {
    user := new User(id, email, username, Usable(password), firstName, lastName, phone);
    if email in StoredEmails(db.rows) {
      return user, false;
    }
    SaveRecordsOneReference(FreshAudit, true, 0);
    inserted := user.Save(db, None, None, now);
  }

  /** An UPDATE of `fields` over a stored row that differs from the instance
      only in those fields stores the instance itself. */
  lemma {:induction false} PersistUnlisted(stored: UserRow, current: UserRow, fields: set<Field>)
    requires forall f | f !in fields :: Column(stored, f) == Column(current, f)
    ensures Persist(stored, current, fields) == current
  {
    ColumnsDetermine(Persist(stored, current, fields), current);
  }

  /** The stored row after `soft_delete` on a saved user: inactive, deleted,
      stamped, the deleter recorded when given, and every column `soft_delete`
      does not list exactly as stored before. */
  lemma {:induction false} SoftDeleteWritesOnlyItsColumns(stored: UserRow, current: UserRow, now: Timestamp, user: Option<Uuid>)
    ensures var r := Persist(stored, StampRow(current.(audit := SoftDeleted(current.audit, now, user)), now, UpdateColumns(SoftDeleteFields)), SoftDeleteFields);
      && !r.audit.isActive && r.audit.isDeleted && r.audit.deletedAt == Some(now)
      && r.audit.deletedBy == (if user.Some? then user else current.audit.deletedBy)
      && forall f :: f !in SoftDeleteFields ==> Column(r, f) == Column(stored, f)
  {
    var c := StampRow(current.(audit := SoftDeleted(current.audit, now, user)), now, UpdateColumns(SoftDeleteFields));
    var r := Persist(stored, c, SoftDeleteFields);
    assert Column(r, IsActive) == Column(c, IsActive);
    assert Column(r, IsDeleted) == Column(c, IsDeleted);
    assert Column(r, DeletedAt) == Column(c, DeletedAt);
    assert Column(r, DeletedBy) == Column(c, DeletedBy);
  }

  /** The stored row after `restore` on a saved user: live, no deletion stamp or
      deleter, the restorer recorded as updater when given, and every column
      `restore` does not list exactly as stored before. */
  lemma {:induction false} RestoreWritesOnlyItsColumns(stored: UserRow, current: UserRow, now: Timestamp, user: Option<Uuid>)
    ensures var r := Persist(stored, StampRow(current.(audit := Restored(current.audit, user)), now, UpdateColumns(RestoreFields)), RestoreFields);
      && r.audit.isActive && !r.audit.isDeleted && r.audit.deletedAt.None? && r.audit.deletedBy.None?
      && r.audit.updatedBy == (if user.Some? then user else current.audit.updatedBy)
      && forall f :: f !in RestoreFields ==> Column(r, f) == Column(stored, f)
  {
    var c := StampRow(current.(audit := Restored(current.audit, user)), now, UpdateColumns(RestoreFields));
    var r := Persist(stored, c, RestoreFields);
    assert Column(r, IsActive) == Column(c, IsActive);
    assert Column(r, IsDeleted) == Column(c, IsDeleted);
    assert Column(r, DeletedAt) == Column(c, DeletedAt);
    assert Column(r, DeletedBy) == Column(c, DeletedBy);
    assert Column(r, UpdatedBy) == Column(c, UpdatedBy);
  }
}
