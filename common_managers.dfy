/** The soft-delete aware query views: `BaseQuerySet.active()` and `.deleted()`,
    the default `BaseManager` (live rows only) and `AllObjectsManager` (every
    row). A table is a map from primary key to row; `status` reads a row's
    audit block. */
module Managers {
  import opened Records

  predicate IsLive(a: Audit) {
    a.isActive && !a.isDeleted
  }

  /** `filter(is_active=True, is_deleted=False)` */
  function Active<R>(rows: map<Uuid, R>, status: R -> Audit): (r: map<Uuid, R>)
    ensures forall k :: k in r <==> k in rows && IsLive(status(rows[k]))
    ensures forall k | k in r :: r[k] == rows[k]
  {
    map k | k in rows && IsLive(status(rows[k])) :: rows[k]
  }

  /** `filter(is_deleted=True)` */
  function Deleted<R>(rows: map<Uuid, R>, status: R -> Audit): (r: map<Uuid, R>)
    ensures forall k :: k in r <==> k in rows && status(rows[k]).isDeleted
    ensures forall k | k in r :: r[k] == rows[k]
  {
    map k | k in rows && status(rows[k]).isDeleted :: rows[k]
  }

  /** `BaseManager.get_queryset()`: the active view of every row. */
  function DefaultView<R>(rows: map<Uuid, R>, status: R -> Audit): (r: map<Uuid, R>)
    ensures r == Active(rows, status)
  {
    Active(rows, status)
  }

  /** `AllObjectsManager.get_queryset()`: no filter. */
  function AllObjects<R>(rows: map<Uuid, R>): (r: map<Uuid, R>)
    ensures r == rows
  {
    rows
  }

  /** The two views never share a row and both are sub-tables of the input. */
  lemma ViewsPartition<R>(rows: map<Uuid, R>, status: R -> Audit)
    ensures Active(rows, status).Keys !! Deleted(rows, status).Keys
    ensures Active(rows, status).Keys <= rows.Keys && Deleted(rows, status).Keys <= rows.Keys
  {
  }

  /** A row stored after `soft_delete` is hidden by the default manager and
      still returned by `all_objects`. */
  lemma SoftDeletedHiddenButKept<R>(rows: map<Uuid, R>, status: R -> Audit, id: Uuid)
    requires id in rows && status(rows[id]).isDeleted
    ensures id !in DefaultView(rows, status)
    ensures id in AllObjects(rows) && id in Deleted(rows, status)
  {
  }

  /** Restoring a row moves it from the deleted view back into the default one. */
  lemma RestoredVisibleAgain<R>(rows: map<Uuid, R>, status: R -> Audit, id: Uuid, stored: Audit, current: Audit, actor: Option<Uuid>)
    requires id in rows && status(rows[id]) == PersistAudit(stored, Restored(current, actor), RestoreFields)
    ensures id in DefaultView(rows, status) && id !in Deleted(rows, status)
  {
    var c := Restored(current, actor);
    var r := status(rows[id]);
    assert AuditColumn(r, IsActive) == AuditColumn(c, IsActive);
    assert AuditColumn(r, IsDeleted) == AuditColumn(c, IsDeleted);
  }
}
