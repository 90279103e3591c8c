/** `UserService`: account creation without the registration form's
    normalisation or username suffixing, and deactivation. */
module UserServices {
  import opened Records
  import opened Orm
  import opened Text
  import opened UserModels
  import AuthSerializers

  const EmailExists := "Email already exists"

  /** The exceptions `create_user` can end in: its own `ValueError`, or the
      database's refusal of a duplicate email. */
  datatype Raised = ValueError(message: string) | IntegrityError

  /** `UserService.create_user(email, password, first_name=.., last_name=..,
      phone=..)`. The email is compared and stored exactly as given, and the
      username is its local part with no suffix. The welcome email is not
      modelled. */
  method CreateUser(db: UserTable, visible: set<Uuid>, email: string, password: string,
                    firstName: string, lastName: string, phone: string, newId: Uuid, now: Timestamp)
    returns (r: Result<User, Raised>)
    requires newId !in db.rows
    modifies db
    ensures email in AuthSerializers.Emails(old(db.rows), visible) ==> r == Err(ValueError(EmailExists)) && db.rows == old(db.rows)
    ensures email !in AuthSerializers.Emails(old(db.rows), visible) && email in StoredEmails(old(db.rows)) ==>
              r == Err(IntegrityError) && db.rows == old(db.rows)
    ensures email !in StoredEmails(old(db.rows)) ==>
              && r.Ok? && fresh(r.value) && r.value.id == newId && !r.value.adding
              && r.value.Snapshot() == UserRow(email, Some(LocalPart(email)), Usable(password), firstName, lastName, phone, None, [],
                                               FreshAudit.(createdAt := Some(now), updatedAt := Some(now)))
              && db.rows == old(db.rows)[newId := r.value.Snapshot()]
  {
    if email in AuthSerializers.Emails(db.rows, visible) {
      return Err(ValueError(EmailExists));
    }
    var user, inserted := ManagerCreateUser(db, newId, email, Some(LocalPart(email)), password, firstName, lastName, phone, now);
    if !inserted {
      return Err(IntegrityError);
    }
    return Ok(user);
  }

  /** `UserService.deactivate_user(user, reason)`: the reason is only logged. */
  method DeactivateUser(user: User, db: UserTable, now: Timestamp) returns (r: User, ok: bool)
    modifies user, db
    ensures r == user
    ensures var w := Plan(old(user.adding), user.id in old(db.rows), Some({IsActive}));
            && user.Snapshot() == StampRow(old(user.Snapshot()).(audit := old(user.AuditRow()).(isActive := false)), now, w)
            && db.rows == Apply(old(db.rows), user.id, w, user.Snapshot(), Persist)
            && user.adding == StillAdding(old(user.adding), w)
            && ok == !w.Reject?
  {
    user.isActive := false;
    SaveRecordsOneReference(user.AuditRow(), user.adding, 0);
    ok := user.Save(db, None, Some({IsActive}), now);
    r := user;
  }

  /** Deactivating a saved user writes `is_active = false` and nothing else:
      not even `updated_at`, which is not listed. */
  lemma {:induction false} DeactivateWritesOnlyIsActive(stored: UserRow, current: UserRow, now: Timestamp)
    ensures var r := Persist(stored, StampRow(current.(audit := current.audit.(isActive := false)), now, UpdateColumns({IsActive})), {IsActive});
            && !r.audit.isActive
            && r == stored.(audit := stored.audit.(isActive := false))
  {
    var c := StampRow(current.(audit := current.audit.(isActive := false)), now, UpdateColumns({IsActive}));
    var r := Persist(stored, c, {IsActive});
    var e := stored.(audit := stored.audit.(isActive := false));
    assert Column(r, IsActive) == Column(c, IsActive);
    forall f ensures Column(r, f) == Column(e, f) {
      if f != IsActive {
        assert AuditColumn(e.audit, f) == AuditColumn(stored.audit, f);
      }
    }
    ColumnsDetermine(r, e);
  }

  /** Two accounts whose emails differ only in case are both accepted here,
      unlike the registration form, which normalises first. */
  lemma {:induction false} CaseVariantNotRejected()
    ensures var rows := map[0 := UserRow("a@x", None, Unusable, [], [], [], None, [], FreshAudit)];
            && "A@x" !in AuthSerializers.Emails(rows, {0})
            && AuthSerializers.NormalizeEmail("A@x") in AuthSerializers.Emails(rows, {0})
  {
    var rows := map[0 := UserRow("a@x", None, Unusable, [], [], [], None, [], FreshAudit)];
    var emails := AuthSerializers.Emails(rows, {0});
    assert rows[0].email == "a@x";
    assert "A@x" !in emails by {
      assert "A@x"[0] != "a@x"[0];
    }
    var l := Lower("A@x");
    assert l == "a@x" by {
      assert l[0] == ToLower('A') == 'a';
    }
    StripKeepsTrimmed(l);
    assert "a@x" in emails;
  }
}
