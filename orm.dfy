/** What Django's `Model.save()` does underneath the overridden `save` methods,
    for a model whose UUID primary key has a default (both `User` and every
    `BaseModel` subclass):
    - `update_fields=[]` returns at once and writes nothing;
    - an instance still being added is INSERTed as a whole row, which fails on
      a primary key that is already stored;
    - otherwise an UPDATE: of the listed columns only when `update_fields` is
      given (failing when no stored row matches), of the whole row when it is
      not (falling back to an INSERT when no stored row matches).
    `auto_now_add` stamps `created_at` on an INSERT, `auto_now` stamps
    `updated_at` on every write that covers it. */
module Orm {
  import opened Records

  datatype Write = Skip | Insert | Update | UpdateColumns(columns: set<Field>) | Reject

  /** Which write a save performs. `stored` says whether the table already holds
      a row with the instance's primary key. */
  function Plan(adding: bool, stored: bool, updateFields: Option<set<Field>>): (w: Write)
    ensures w.Skip? <==> updateFields == Some({})
    ensures w.Reject? <==> updateFields != Some({}) && stored == adding && (adding || updateFields.Some?)
    ensures w.Insert? <==> updateFields != Some({}) && !stored && (adding || updateFields.None?)
    ensures w.Update? <==> !adding && stored && updateFields.None?
    ensures w.UpdateColumns? <==> !adding && stored && updateFields.Some? && updateFields != Some({})
    ensures w.UpdateColumns? ==> updateFields == Some(w.columns)
  {
    if updateFields == Some({}) then Skip
    else if adding then (if stored then Reject else Insert)
    else match updateFields
      case None => if stored then Update else Insert
      case Some(fs) => if stored then UpdateColumns(fs) else Reject
  }

  /** The `pre_save` stamps of the two automatic timestamps; no other column moves. */
  function Stamp(a: Audit, now: Timestamp, w: Write): (r: Audit)
    ensures r.createdAt == (if w.Insert? then Some(now) else a.createdAt)
    ensures r.updatedAt == (if w.Insert? || w.Update? || (w.UpdateColumns? && UpdatedAt in w.columns) then Some(now) else a.updatedAt)
    ensures forall f :: f != CreatedAt && f != UpdatedAt ==> AuditColumn(r, f) == AuditColumn(a, f)
  {
    match w
    case Insert => a.(createdAt := Some(now), updatedAt := Some(now))
    case Update => a.(updatedAt := Some(now))
    case UpdateColumns(fs) => if UpdatedAt in fs then a.(updatedAt := Some(now)) else a
    case _ => a
  }

  /** The table after the write: the whole row for an INSERT or a full UPDATE,
      the listed columns (merged by `persist`) for a field-list UPDATE, nothing
      otherwise. */
  function Apply<R>(rows: map<Uuid, R>, id: Uuid, w: Write, current: R, persist: (R, R, set<Field>) -> R): (r: map<Uuid, R>)
    ensures r.Keys == if w.Insert? || w.Update? then rows.Keys + {id} else rows.Keys
    ensures forall k | k in rows && k != id :: r[k] == rows[k]
    ensures (w.Insert? || w.Update?) ==> r[id] == current
    ensures w.UpdateColumns? && id in rows ==> r[id] == persist(rows[id], current, w.columns)
    ensures (w.Skip? || w.Reject? || (w.UpdateColumns? && id !in rows)) ==> r == rows
  {
    match w
    case Insert => rows[id := current]
    case Update => rows[id := current]
    case UpdateColumns(fs) => if id in rows then rows[id := persist(rows[id], current, fs)] else rows
    case _ => rows
  }

  /** `_state.adding` after a save: an INSERT clears it, and nothing else
      changes it. */
  function StillAdding(adding: bool, w: Write): (r: bool)
    ensures w.Insert? ==> !r
    ensures !w.Insert? ==> r == adding
  {
    adding && !w.Insert?
  }
}
