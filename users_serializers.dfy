/** The profile serializers: the partial update of the writable profile
    fields with its audit stamp, and the summary of a user's linked accounts. */
module UserSerializers {
  import opened Records
  import opened Orm
  import opened UserModels
  import opened SocialAccounts

  /** One entry of the validated data of `UpdateUserSerializer`: only the five
      fields its `Meta.fields` lists can occur. */
  datatype ProfileEdit =
    | FirstNameTo(s: string)
    | LastNameTo(s: string)
    | PhoneTo(s: string)
    | BioTo(s: string)
    | AvatarTo(o: Option<string>)
  {
    function Column(): (f: Field)
      ensures f in Writable
    {
      match this
      case FirstNameTo(_) => FirstName
      case LastNameTo(_) => LastName
      case PhoneTo(_) => Phone
      case BioTo(_) => Bio
      case AvatarTo(_) => Avatar
    }

    function NewValue(): Value {
      match this
      case AvatarTo(o) => MaybeText(o)
      case FirstNameTo(s) => Chars(s)
      case LastNameTo(s) => Chars(s)
      case PhoneTo(s) => Chars(s)
      case BioTo(s) => Chars(s)
    }
  }

  const Writable: set<Field> := {FirstName, LastName, Phone, Bio, Avatar}

  /** `setattr(instance, attr, value)` on the row. */
  function ApplyEdit(u: UserRow, e: ProfileEdit): (r: UserRow)
    ensures Column(r, e.Column()) == e.NewValue()
    ensures forall f :: f != e.Column() ==> Column(r, f) == Column(u, f)
  {
    match e
    case FirstNameTo(s) => u.(firstName := s)
    case LastNameTo(s) => u.(lastName := s)
    case PhoneTo(s) => u.(phone := s)
    case BioTo(s) => u.(bio := s)
    case AvatarTo(o) => u.(avatar := o)
  }

  /** The edits applied in order: a column no edit names keeps its value, and
      the last edit wins. */
  function ApplyEdits(u: UserRow, edits: seq<ProfileEdit>): (r: UserRow)
    ensures forall f | f !in Keys(edits) :: Column(r, f) == Column(u, f)
    ensures edits != [] ==> Column(r, edits[|edits| - 1].Column()) == edits[|edits| - 1].NewValue()
  {
    if edits == [] then u
    else
      var init := edits[..|edits| - 1];
      KeysOfPrefix(edits);
      ApplyEdit(ApplyEdits(u, init), edits[|edits| - 1])
  }

  lemma {:induction false} KeysOfPrefix(edits: seq<ProfileEdit>)
    requires edits != []
    ensures Keys(edits) == Keys(edits[..|edits| - 1]) + {edits[|edits| - 1].Column()}
  {
    var init := edits[..|edits| - 1];
    forall f | f in Keys(init) ensures f in Keys(edits) {
      var i :| 0 <= i < |init| && init[i].Column() == f;
      assert edits[i] == init[i];
    }
    forall f | f in Keys(edits) ensures f in Keys(init) + {edits[|edits| - 1].Column()} {
      var i :| 0 <= i < |edits| && edits[i].Column() == f;
      if i < |init| {
        assert init[i] == edits[i];
      }
    }
  }

  /** `validated_data.keys()` */
  function Keys(edits: seq<ProfileEdit>): (ks: set<Field>)
    ensures ks <= Writable
  {
    set i | 0 <= i < |edits| :: edits[i].Column()
  }

  /** `validated_data` is a dict: no field occurs twice. */
  predicate DistinctKeys(edits: seq<ProfileEdit>) {
    forall i, j | 0 <= i < j < |edits| :: edits[i].Column() != edits[j].Column()
  }

  /** The edits assign exactly the fields they name, each its own value, and
      leave every other column, email and password included, as it was. */
  lemma {:induction false} ApplyEditsColumns(u: UserRow, edits: seq<ProfileEdit>)
    requires DistinctKeys(edits)
    ensures forall f | f !in Keys(edits) :: Column(ApplyEdits(u, edits), f) == Column(u, f)
    ensures forall i | 0 <= i < |edits| :: Column(ApplyEdits(u, edits), edits[i].Column()) == edits[i].NewValue()
  {
    if edits != [] {
      var init := edits[..|edits| - 1];
      var last := edits[|edits| - 1];
      assert DistinctKeys(init) by {
        forall i, j | 0 <= i < j < |init| ensures init[i].Column() != init[j].Column() {
          assert init[i] == edits[i] && init[j] == edits[j];
        }
      }
      ApplyEditsColumns(u, init);
      forall i | 0 <= i < |edits| ensures Column(ApplyEdits(u, edits), edits[i].Column()) == edits[i].NewValue() {
        if i < |edits| - 1 {
          assert init[i] == edits[i];
        }
      }
    }
  }

  /** One `setattr(instance, attr, value)`. */
  method AssignEdit(instance: User, e: ProfileEdit)
    modifies instance
    ensures instance.Snapshot() == ApplyEdit(old(instance.Snapshot()), e)
    ensures instance.adding == old(instance.adding)
  {
    match e {
      case FirstNameTo(s) => instance.firstName := s;
      case LastNameTo(s) => instance.lastName := s;
      case PhoneTo(s) => instance.phone := s;
      case BioTo(s) => instance.bio := s;
      case AvatarTo(o) => instance.avatar := o;
    }
  }

  /** The `for attr, value in validated_data.items(): setattr(...)` loop. */
  method AssignEdits(instance: User, edits: seq<ProfileEdit>)
    modifies instance
    ensures instance.Snapshot() == ApplyEdits(old(instance.Snapshot()), edits)
    ensures instance.adding == old(instance.adding)
  {
    var i := 0;
    while i < |edits|
      invariant 0 <= i <= |edits|
      invariant instance.Snapshot() == ApplyEdits(old(instance.Snapshot()), edits[..i])
      invariant instance.adding == old(instance.adding)
    {
      assert edits[..i + 1][..i] == edits[..i];
      AssignEdit(instance, edits[i]);
      i := i + 1;
    }
    assert edits[..|edits|] == edits;
  }

  /** `UpdateUserSerializer.update(instance, validated_data)`. `actor` is the
      request's user when the serializer has a request; the view behind it
      admits authenticated users only. */
  method UpdateProfile(instance: User, db: UserTable, edits: seq<ProfileEdit>, actor: Option<Uuid>, now: Timestamp)
    returns (r: User, ok: bool)
    modifies instance, db
    ensures r == instance
    ensures var w := Plan(old(instance.adding), instance.id in old(db.rows), Some(UpdateFields(edits)));
            var edited := ApplyEdits(old(instance.Snapshot()), edits);
            && instance.Snapshot() == StampRow(edited.(audit := edited.audit.(updatedBy := if actor.Some? then actor else edited.audit.updatedBy)), now, w)
            && db.rows == Apply(old(db.rows), instance.id, w, instance.Snapshot(), Persist)
            && instance.adding == StillAdding(old(instance.adding), w)
            && ok == !w.Reject?
  {
    AssignEdits(instance, edits);
    if actor.Some? {
      instance.updatedBy := actor;
    }
    SaveRecordsOneReference(instance.AuditRow(), instance.adding, 0);
    ok := instance.Save(db, None, Some(UpdateFields(edits)), now);
    r := instance;
  }

  /** The in-memory row a profile update saves: the edits applied, then the
      requester recorded as updater, then `updated_at` stamped. */
  function Edited(current: UserRow, edits: seq<ProfileEdit>, actor: Option<Uuid>, now: Timestamp): (saved: UserRow)
    requires DistinctKeys(edits)
    ensures forall i | 0 <= i < |edits| :: Column(saved, edits[i].Column()) == edits[i].NewValue()
    ensures saved.audit.updatedBy == (if actor.Some? then actor else current.audit.updatedBy)
    ensures saved.audit.updatedAt == Some(now)
  {
    var edited := ApplyEdits(current, edits);
    var updated := edited.(audit := edited.audit.(updatedBy := if actor.Some? then actor else edited.audit.updatedBy));
    var saved := StampRow(updated, now, UpdateColumns(UpdateFields(edits)));
    ApplyEditsColumns(current, edits);
    ApplyEditsKeepAudit(current, edits);
    WritableOutsideAudit(updated, edited);
    EditsSurvive(edits, edited, updated, saved);
    saved
  }

  /** Profile edits never touch the audit block. */
  lemma {:induction false} ApplyEditsKeepAudit(u: UserRow, edits: seq<ProfileEdit>)
    ensures ApplyEdits(u, edits).audit == u.audit
  {
    if edits != [] {
      ApplyEditsKeepAudit(u, edits[..|edits| - 1]);
    }
  }

  /** The steps of `Edited`: the edited values survive the updater and
      timestamp assignments, which touch audit columns only. */
  lemma EditsSurvive(edits: seq<ProfileEdit>, edited: UserRow, updated: UserRow, saved: UserRow)
    requires forall i | 0 <= i < |edits| :: Column(edited, edits[i].Column()) == edits[i].NewValue()
    requires forall f | f in Writable :: Column(updated, f) == Column(edited, f)
    requires forall f :: f != CreatedAt && f != UpdatedAt ==> Column(saved, f) == Column(updated, f)
    ensures forall i | 0 <= i < |edits| :: Column(saved, edits[i].Column()) == edits[i].NewValue()
  {
    forall i | 0 <= i < |edits| ensures Column(saved, edits[i].Column()) == edits[i].NewValue() {
      var f := edits[i].Column();
      assert f in Writable;
      assert f != CreatedAt && f != UpdatedAt;
    }
  }

  /** Rows that differ in their audit block only agree on every writable column. */
  lemma WritableOutsideAudit(a: UserRow, b: UserRow)
    requires a.(audit := b.audit) == b
    ensures forall f | f in Writable :: Column(a, f) == Column(b, f)
  {
    assert a.firstName == b.firstName && a.lastName == b.lastName && a.phone == b.phone;
    assert a.bio == b.bio && a.avatar == b.avatar;
  }

  /** The columns a profile update writes: the edited fields, `updated_by`
      and `updated_at`. */
  function UpdateFields(edits: seq<ProfileEdit>): (fields: set<Field>)
    ensures Email !in fields && Password !in fields && Username !in fields
    ensures forall i | 0 <= i < |edits| :: edits[i].Column() in fields
  {
    Keys(edits) + {UpdatedBy, UpdatedAt}
  }

  /** The stored row after a profile update of a saved user: each edited field
      holds its new value, `updated_by` is the requester when there is one and
      `updated_at` is `now` (it is listed, so `auto_now` stamps it). */
  lemma {:induction false} UpdateProfileStores(stored: UserRow, current: UserRow, edits: seq<ProfileEdit>, actor: Option<Uuid>, now: Timestamp)
    requires DistinctKeys(edits)
    ensures var r := Persist(stored, Edited(current, edits, actor, now), UpdateFields(edits));
            && (forall i | 0 <= i < |edits| :: Column(r, edits[i].Column()) == edits[i].NewValue())
            && r.audit.updatedBy == (if actor.Some? then actor else current.audit.updatedBy)
            && r.audit.updatedAt == Some(now)
  {
    var saved := Edited(current, edits, actor, now);
    var r := Persist(stored, saved, UpdateFields(edits));
    assert Column(r, UpdatedBy) == Column(saved, UpdatedBy);
    assert Column(r, UpdatedAt) == Column(saved, UpdatedAt);
  }

  /** A profile update leaves every unlisted column as stored, so email,
      username and password are never changed by it. */
  lemma {:induction false} UpdateProfileKeepsOthers(stored: UserRow, current: UserRow, edits: seq<ProfileEdit>, actor: Option<Uuid>, now: Timestamp)
    requires DistinctKeys(edits)
    ensures var r := Persist(stored, Edited(current, edits, actor, now), UpdateFields(edits));
            && (forall f | f !in UpdateFields(edits) :: Column(r, f) == Column(stored, f))
            && r.email == stored.email && r.password == stored.password && r.username == stored.username
  {
    var r := Persist(stored, Edited(current, edits, actor, now), UpdateFields(edits));
    assert Column(r, Email) == Column(stored, Email);
    assert Column(r, Password) == Column(stored, Password);
    assert Column(r, Username) == Column(stored, Username);
  }

  /** One entry of `UserSerializer.get_social_accounts`. */
  datatype AccountSummary = AccountSummary(provider: string, uid: string, dateJoined: Timestamp)

  /** `UserSerializer.get_social_accounts(obj)` */
  function GetSocialAccounts(all: seq<SocialAccount>, user: Uuid): (r: seq<AccountSummary>)
    ensures |r| == |OwnedBy(all, user)|
    ensures forall i | 0 <= i < |r| :: var a := OwnedBy(all, user)[i];
              r[i] == AccountSummary(a.provider, a.uid, a.dateJoined)
  {
    var own := OwnedBy(all, user);
    seq(|own|, i requires 0 <= i < |own| => AccountSummary(own[i].provider, own[i].uid, own[i].dateJoined))
  }
}
