/** The abstract `BaseModel`: a UUID primary key, the audit trail and soft
    delete. Only the columns `BaseModel` itself declares are modelled; a
    concrete subclass's own columns are not. */
module CommonModels {
  import opened Records
  import opened Orm

  /** The in-memory audit assignments of `BaseModel.save(user)`: the creator is
      recorded only when the instance has no primary key, a user is given and
      no creator is recorded yet; the updater is recorded whenever a user is
      given, on the creating save too. */
  function SaveAudit(a: Audit, hasPk: bool, user: Option<Uuid>): (r: Audit)
    ensures r.createdBy == (if !hasPk && user.Some? && a.createdBy.None? then user else a.createdBy)
    ensures r.updatedBy == (if user.Some? then user else a.updatedBy)
    ensures forall f :: f != CreatedBy && f != UpdatedBy ==> AuditColumn(r, f) == AuditColumn(a, f)
  {
    a.(createdBy := if !hasPk && user.Some? && a.createdBy.None? then user else a.createdBy,
       updatedBy := if user.Some? then user else a.updatedBy)
  }

  /** The table of one `BaseModel` subclass: primary key to stored row. */
  class BaseTable {
    var rows: map<Uuid, Audit>

    constructor ()
      ensures rows == map[]
    {
      rows := map[];
    }
  }

  class BaseModel {
    var pk: Option<Uuid>
    var createdAt: Option<Timestamp>
    var updatedAt: Option<Timestamp>
    var deletedAt: Option<Timestamp>
    var createdBy: Option<Uuid>
    var updatedBy: Option<Uuid>
    var deletedBy: Option<Uuid>
    var isDeleted: bool
    var isActive: bool
    /** Django's `_state.adding`: true until the instance is first written. */
    var adding: bool

    function Row(): Audit
      reads this
    {
      Audit(createdAt, updatedAt, deletedAt, createdBy, updatedBy, deletedBy, isDeleted, isActive)
    }

    /** A new instance: the UUID default gives it a primary key at once. */
    constructor (id: Uuid)
      ensures pk == Some(id) && adding
      ensures Row() == FreshAudit
    {
      pk := Some(id);
      createdAt, updatedAt, deletedAt := None, None, None;
      createdBy, updatedBy, deletedBy := None, None, None;
      isDeleted, isActive := false, true;
      adding := true;
    }

    method Assign(a: Audit)
      modifies this
      ensures Row() == a && pk == old(pk) && adding == old(adding)
    {
      createdAt, updatedAt, deletedAt := a.createdAt, a.updatedAt, a.deletedAt;
      createdBy, updatedBy, deletedBy := a.createdBy, a.updatedBy, a.deletedBy;
      isDeleted, isActive := a.isDeleted, a.isActive;
    }

    /** `save(user=..., update_fields=...)`. A missing primary key is filled
        from the UUID default (`newPk`) before the row is written. */
    method Save(table: BaseTable, user: Option<Uuid>, updateFields: Option<set<Field>>, now: Timestamp, newPk: Uuid)
      returns (ok: bool)
      requires updateFields.Some? ==> forall f | f in updateFields.value :: f.IsAudit()
      modifies this, table
      ensures var id := if old(pk).Some? then old(pk).value else newPk;
              var w := Plan(old(adding), id in old(table.rows), updateFields);
              && pk == (if w.Skip? then old(pk) else Some(id))
              && Row() == Stamp(SaveAudit(old(Row()), old(pk).Some?, user), now, w)
              && table.rows == Apply(old(table.rows), id, w, Row(), PersistAudit)
              && adding == StillAdding(old(adding), w)
              && ok == !w.Reject?
    {
      if pk.None? && user.Some? && createdBy.None? {
        createdBy := user;
      }
      if user.Some? {
        updatedBy := user;
      }
      // Model.save
      var id := if pk.Some? then pk.value else newPk;
      var w := Plan(adding, id in table.rows, updateFields);
      if !w.Skip? {
        pk := Some(id);
      }
      Assign(Stamp(Row(), now, w));
      table.rows := Apply(table.rows, id, w, Row(), PersistAudit);
      adding := StillAdding(adding, w);
      ok := !w.Reject?;
    }

    /** `soft_delete(user)`: marks the record deleted and writes only the four
        columns it lists. */
    method SoftDelete(table: BaseTable, user: Option<Uuid>, now: Timestamp, newPk: Uuid)
      returns (ok: bool)
      modifies this, table
      ensures var id := if old(pk).Some? then old(pk).value else newPk;
              var w := Plan(old(adding), id in old(table.rows), Some(SoftDeleteFields));
              && pk == Some(id)
              && Row() == Stamp(SoftDeleted(old(Row()), now, user), now, w)
              && table.rows == Apply(old(table.rows), id, w, Row(), PersistAudit)
              && adding == StillAdding(old(adding), w)
              && ok == !w.Reject?
    {
      isActive := false;
      isDeleted := true;
      deletedAt := Some(now);
      if user.Some? {
        deletedBy := user;
      }
      ok := Save(table, None, Some(SoftDeleteFields), now, newPk);
    }

    /** `restore(user)`: live again, deletion cleared, writes only the five
        columns it lists. */
    method Restore(table: BaseTable, user: Option<Uuid>, now: Timestamp, newPk: Uuid)
      returns (ok: bool)
      modifies this, table
      ensures var id := if old(pk).Some? then old(pk).value else newPk;
              var w := Plan(old(adding), id in old(table.rows), Some(RestoreFields));
              && pk == Some(id)
              && Row() == Stamp(Restored(old(Row()), user), now, w)
              && table.rows == Apply(old(table.rows), id, w, Row(), PersistAudit)
              && adding == StillAdding(old(adding), w)
              && ok == !w.Reject?
    {
      isActive := true;
      isDeleted := false;
      deletedAt := None;
      deletedBy := None;
      if user.Some? {
        updatedBy := user;
      }
      ok := Save(table, None, Some(RestoreFields), now, newPk);
    }
  }

  /** The first save of a freshly constructed record, by a known user: because
      the UUID default already gave the instance a primary key, `created_by`
      stays unset even though the record is new, while `updated_by` is the user. */
  method FirstSaveByUser(table: BaseTable, id: Uuid, user: Uuid, now: Timestamp)
    returns (record: BaseModel, ok: bool)
    requires id !in table.rows
    modifies table
    ensures ok && record.pk == Some(id) && !record.adding
    ensures record.Row() == FreshAudit.(createdAt := Some(now), updatedAt := Some(now), updatedBy := Some(user))
    ensures table.rows == old(table.rows)[id := record.Row()]
    ensures table.rows[id].createdBy.None?
  {
    record := new BaseModel(id);
    ok := record.Save(table, Some(user), None, now, id);
  }

  /** Saving with a user never replaces a recorded creator, and saving without
      one changes no audit column at all. */
  lemma {:induction false} SaveKeepsCreator(a: Audit, hasPk: bool, user: Option<Uuid>)
    ensures a.createdBy.Some? ==> SaveAudit(a, hasPk, user).createdBy == a.createdBy
    ensures user.None? ==> SaveAudit(a, hasPk, user) == a
  {
    if user.None? {
      AuditColumnsDetermine(SaveAudit(a, hasPk, user), a);
    }
  }

  /** A soft-deleted record written over its stored row: the stored row is
      inactive and deleted, carries the deletion stamp, and keeps every column
      that `soft_delete` does not list. */
  lemma {:induction false} SoftDeleteStoresOnlyItsColumns(stored: Audit, current: Audit, now: Timestamp, user: Option<Uuid>)
    ensures var r := PersistAudit(stored, SoftDeleted(current, now, user), SoftDeleteFields);
      && !r.isActive && r.isDeleted && r.deletedAt == Some(now)
      && r.deletedBy == (if user.Some? then user else current.deletedBy)
      && forall f :: f !in SoftDeleteFields ==> AuditColumn(r, f) == AuditColumn(stored, f)
  {
    var d := SoftDeleted(current, now, user);
    var r := PersistAudit(stored, d, SoftDeleteFields);
    assert AuditColumn(r, IsActive) == AuditColumn(d, IsActive);
    assert AuditColumn(r, IsDeleted) == AuditColumn(d, IsDeleted);
    assert AuditColumn(r, DeletedAt) == AuditColumn(d, DeletedAt);
    assert AuditColumn(r, DeletedBy) == AuditColumn(d, DeletedBy);
  }
}
