/** Registration, login and password-change validation, and the registration
    `save` with its username de-duplication loop. DRF reports validation
    errors as a map from field name to a list of messages; an error raised by
    a serializer-level `validate` without a field goes under
    `non_field_errors`. */
module AuthSerializers {
  import opened Records
  import opened Text
  import opened Orm
  import opened UserModels

  type Errors = map<string, seq<string>>

  const EmailTaken := "A user with this email already exists."
  const PasswordsDiffer := "Password fields didn't match."
  const BadCredentials := "Invalid email or password."
  const AccountDisabled := "User account is disabled."
  const NonFieldErrors := "non_field_errors"

  /** `value.lower().strip()` */
  function NormalizeEmail(value: string): (r: string)
    ensures forall i | 0 <= i < |r| :: !IsUpper(r[i])
    ensures Trimmed(r)
    ensures r == Strip(Lower(value))
  {
    var l := Lower(value);
    var r := Strip(l);
    r
  }

  /** Normalising an already normalised email changes nothing. */
  lemma {:induction false} NormalizeEmailIdempotent(value: string)
    ensures NormalizeEmail(NormalizeEmail(value)) == NormalizeEmail(value)
  {
    NormalFormFixed(NormalizeEmail(value));
  }

  /** A lower-case email without surrounding whitespace normalises to itself. */
  lemma {:induction false} NormalFormFixed(s: string)
    requires forall i | 0 <= i < |s| :: !IsUpper(s[i])
    requires Trimmed(s)
    ensures NormalizeEmail(s) == s
  {
    LowerOfLowercase(s);
    StripKeepsTrimmed(s);
  }

  /** `lower()` leaves a string without upper-case letters as it is. */
  lemma {:induction false} LowerOfLowercase(s: string)
    requires forall i | 0 <= i < |s| :: !IsUpper(s[i])
    ensures Lower(s) == s
  {
    var l := Lower(s);
    forall i | 0 <= i < |s| ensures l[i] == s[i] {
      assert l[i] == ToLower(s[i]);
    }
  }

  /** The emails and usernames of the users that `User.objects` returns:
      `visible` is the set of rows its default manager shows. */
  function Emails(rows: map<Uuid, UserRow>, visible: set<Uuid>): (r: set<string>)
    ensures forall k | k in rows && k in visible :: rows[k].email in r
    ensures forall e | e in r :: exists k | k in rows && k in visible :: rows[k].email == e
    ensures r <= StoredEmails(rows)
  {
    set k | k in rows && k in visible :: rows[k].email
  }

  function Usernames(rows: map<Uuid, UserRow>, visible: set<Uuid>): (r: set<string>)
    ensures forall k | k in rows && k in visible && rows[k].username.Some? :: rows[k].username.value in r
    ensures forall n | n in r :: exists k | k in rows && k in visible :: rows[k].username == Some(n)
  {
    set k | k in rows && k in visible && rows[k].username.Some? :: rows[k].username.value
  }

  /** The uniqueness check sees only the rows the default manager shows, while
      the table's unique index covers every row: an email held only by a
      soft-deleted (hidden) row passes the check and reaches the INSERT. */
  lemma {:induction false} HiddenEmailPassesCheck(rows: map<Uuid, UserRow>, visible: set<Uuid>, k: Uuid)
    requires k in rows && k !in visible
    requires forall j | j in rows && j in visible :: rows[j].email != rows[k].email
    ensures rows[k].email !in Emails(rows, visible)
    ensures rows[k].email in StoredEmails(rows)
  {
  }

  /** `RegisterSerializer.validate_email` */
  function ValidateEmail(value: string, existing: set<string>): (r: Result<string, string>)
    ensures r.Ok? <==> NormalizeEmail(value) !in existing
    ensures r.Ok? ==> r.value == NormalizeEmail(value)
    ensures r.Err? ==> r.error == EmailTaken
  {
    var v := NormalizeEmail(value);
    if v in existing then Err(EmailTaken) else Ok(v)
  }

  /** An accepted email is stored normalised, and every spelling of an existing
      email that differs only in case or surrounding whitespace is refused. */
  lemma {:induction false} ValidatedEmailIsNormal(value: string, existing: set<string>)
    requires ValidateEmail(value, existing).Ok?
    ensures NormalizeEmail(ValidateEmail(value, existing).value) == ValidateEmail(value, existing).value
  {
    NormalizeEmailIdempotent(value);
  }

  lemma {:induction false} SpellingsOfTakenEmailRefused(value: string, other: string, existing: set<string>)
    requires NormalizeEmail(other) in existing && NormalizeEmail(value) == NormalizeEmail(other)
    ensures ValidateEmail(value, existing) == Err(EmailTaken)
  {
  }

  /** The registration fields; the optional ones are `None` when not sent. */
  datatype Registration = Registration(
    email: string,
    password: string,
    password2: string,
    firstName: Option<string>,
    lastName: Option<string>,
    phone: Option<string>)

  /** `RegisterSerializer.validate`: the two passwords must agree. */
  function ValidateRegistrationPasswords(attrs: Registration): (r: Result<Registration, Errors>)
    ensures r.Err? <==> attrs.password != attrs.password2
    ensures r.Ok? ==> r.value == attrs
    ensures r.Err? ==> r.error == map["password" := [PasswordsDiffer]]
  {
    if attrs.password != attrs.password2 then Err(map["password" := [PasswordsDiffer]]) else Ok(attrs)
  }

  /** Validation of a registration as DRF runs it: the field validators first
      (`validate_email`, and `validate_password`, whose complaints
      `passwordProblems` receives), and `validate` only when no field failed. */
  function ValidateRegistration(data: Registration, existing: set<string>, passwordProblems: seq<string>): (r: Result<Registration, Errors>)
    ensures r.Ok? <==> NormalizeEmail(data.email) !in existing && passwordProblems == [] && data.password == data.password2
    ensures r.Ok? ==> r.value == data.(email := NormalizeEmail(data.email))
    ensures r.Err? ==> ("email" in r.error || "password" in r.error) && r.error.Keys <= {"email", "password"}
    ensures NormalizeEmail(data.email) in existing ==> r.Err? && "email" in r.error && r.error["email"] == [EmailTaken]
    ensures passwordProblems != [] ==> r.Err? && "password" in r.error && r.error["password"] == passwordProblems
    ensures NormalizeEmail(data.email) !in existing && passwordProblems == [] && data.password != data.password2 ==>
              r == Err(map["password" := [PasswordsDiffer]])
  {
    var email := ValidateEmail(data.email, existing);
    if email.Err? then
      if passwordProblems != [] then
        assert "email" != "password";
        Err(map["email" := [email.error], "password" := passwordProblems])
      else
        Err(map["email" := [email.error]])
    else if passwordProblems != [] then
      Err(map["password" := passwordProblems])
    else
      ValidateRegistrationPasswords(data.(email := email.value))
  }

  /** The usernames tried by the registration loop: the local part, then the
      local part followed by 1, 2, 3, ... */
  function Candidate(base: string, k: nat): (r: string)
    ensures k == 0 <==> r == base
    ensures |r| >= |base| && r[..|base|] == base
    ensures k > 0 ==> r[|base|..] == Decimal(k)
  {
    if k == 0 then base else base + Decimal(k)
  }

  lemma {:induction false} CandidateInjective(base: string, j: nat, k: nat)
    requires Candidate(base, j) == Candidate(base, k)
    ensures j == k
  {
    if j != 0 && k != 0 {
      var cj := Candidate(base, j);
      assert cj[|base|..] == Decimal(j);
      assert Candidate(base, k)[|base|..] == Decimal(k);
      DecimalInjective(j, k);
    }
  }

  /** The candidates the loop has tried before reaching suffix `k`. */
  ghost function Tried(base: string, k: nat): set<string> {
    set j | 0 <= j < k :: Candidate(base, j)
  }

  lemma {:induction false} TriedStep(base: string, k: nat)
    ensures Tried(base, k + 1) == Tried(base, k) + {Candidate(base, k)}
    ensures Candidate(base, k) !in Tried(base, k)
  {
    assert Candidate(base, k) in Tried(base, k + 1);
    if Candidate(base, k) in Tried(base, k) {
      var j :| 0 <= j < k && Candidate(base, j) == Candidate(base, k);
      CandidateInjective(base, j, k);
    }
  }

  lemma {:induction false} TriedAllTaken(base: string, k: nat, taken: set<string>)
    requires forall j | 0 <= j < k :: Candidate(base, j) in taken
    ensures Tried(base, k) <= taken
  {
  }

  lemma {:induction false} RemovingOneMore<T>(a: set<T>, b: set<T>, x: T)
    requires x in a && x !in b
    ensures |a - (b + {x})| < |a - b|
  {
    assert a - b == (a - (b + {x})) + {x};
  }

  /** The username loop of `RegisterSerializer.save`, against the usernames
      currently visible. It returns the first free candidate; `k` is its
      suffix (0 for the bare local part). */
  method UniqueUsername(email: string, db: UserTable, visible: set<Uuid>) returns (username: string, ghost k: nat)
    ensures username !in Usernames(db.rows, visible)
    ensures username == Candidate(LocalPart(email), k)
    ensures forall j | 0 <= j < k :: Candidate(LocalPart(email), j) in Usernames(db.rows, visible)
    ensures LocalPart(email) !in Usernames(db.rows, visible) ==> username == LocalPart(email)
  {
    ghost var taken := Usernames(db.rows, visible);
    username := LocalPart(email);
    var base := username;
    var counter: nat := 1;
    k := 0;
    while username in Usernames(db.rows, visible)
      invariant counter == k + 1
      invariant username == Candidate(base, k)
      invariant forall j | 0 <= j < k :: Candidate(base, j) in taken
      decreases |taken - Tried(base, k)|
    {
      TriedStep(base, k);
      TriedAllTaken(base, k, taken);
      RemovingOneMore(taken, Tried(base, k), username);
      username := base + Decimal(counter);
      counter := counter + 1;
      k := k + 1;
    }
  }

  /** The request a serializer sees: the user on it, `None` when anonymous. */
  datatype Request = Request(user: Option<Uuid>)

  /** `request and hasattr(request, "user") and request.user.is_authenticated` */
  function AuthenticatedActor(request: Option<Request>): (actor: Option<Uuid>)
    ensures actor.Some? <==> request.Some? && request.value.user.Some?
    ensures actor.Some? ==> actor == request.value.user
  {
    if request.Some? then request.value.user else None
  }

  /** `RegisterSerializer.save(request)` on validated data: the generated
      username, the manager's `create_user`, and, for an authenticated
      requester, a second save that records the creator and writes
      `created_by` alone. When the email is already stored (by a row the
      default manager hides, since `validate_email` let it through), the
      INSERT raises `IntegrityError`: `inserted` is false and nothing is
      written. */
  method Register(db: UserTable, data: Registration, visible: set<Uuid>, request: Option<Request>, newId: Uuid, now: Timestamp)
    returns (user: User, inserted: bool, ghost k: nat)
    requires newId !in db.rows
    modifies db
    ensures fresh(user) && user.id == newId
    ensures inserted <==> data.email !in StoredEmails(old(db.rows))
    ensures !inserted ==> db.rows == old(db.rows)
    ensures inserted ==> !user.adding && db.rows == old(db.rows)[newId := user.Snapshot()]
    ensures inserted ==>
              && user.username.Some?
              && user.username.value !in Usernames(old(db.rows), visible)
              && user.username.value == Candidate(LocalPart(data.email), k)
              && (forall j | 0 <= j < k :: Candidate(LocalPart(data.email), j) in Usernames(old(db.rows), visible))
    ensures inserted ==>
              user.Snapshot() == UserRow(
                data.email, user.username, Usable(data.password),
                if data.firstName.Some? then data.firstName.value else [],
                if data.lastName.Some? then data.lastName.value else [],
                if data.phone.Some? then data.phone.value else [],
                None, [],
                FreshAudit.(createdAt := Some(now), updatedAt := Some(now), createdBy := AuthenticatedActor(request)))
  {
    var username;
    username, k := UniqueUsername(data.email, db, visible);
    var firstName := if data.firstName.Some? then data.firstName.value else [];
    var lastName := if data.lastName.Some? then data.lastName.value else [];
    var phone := if data.phone.Some? then data.phone.value else [];
    user, inserted := ManagerCreateUser(db, newId, data.email, Some(username), data.password, firstName, lastName, phone, now);
    if !inserted {
      return;
    }
    var actor := AuthenticatedActor(request);
    if actor.Some? {
      RecordCreator(user, db, actor.value, now);
    }
  }

  /** `user.created_by = request.user; user.save(update_fields=["created_by"])`
      on a user just inserted: the stored row and the instance both gain the
      creator and nothing else changes (`updated_at` is not listed, so it is
      not stamped). */
  method RecordCreator(user: User, db: UserTable, actor: Uuid, now: Timestamp)
    requires !user.adding && user.id in db.rows && db.rows[user.id] == user.Snapshot()
    modifies user, db
    ensures !user.adding
    ensures user.Snapshot() == old(user.Snapshot()).(audit := old(user.AuditRow()).(createdBy := Some(actor)))
    ensures db.rows == old(db.rows)[user.id := user.Snapshot()]
  {
    ghost var stored := user.Snapshot();
    user.createdBy := Some(actor);
    assert user.Snapshot() == stored.(audit := stored.audit.(createdBy := Some(actor)));
    CreatorColumnOnly(stored, actor, now);
    var recorded := user.Save(db, None, Some({CreatedBy}), now);
  }

  /** The second save of `save()` writes the `created_by` column alone: no
      timestamp is stamped and the stored row becomes the instance. */
  lemma {:induction false} CreatorColumnOnly(stored: UserRow, actor: Uuid, now: Timestamp)
    ensures var current := stored.(audit := stored.audit.(createdBy := Some(actor)));
            var w := Plan(false, true, Some({CreatedBy}));
            && StampRow(current.(audit := UserModels.SaveAudit(current.audit, false, None)), now, w) == current
            && Persist(stored, current, {CreatedBy}) == current
  {
    var current := stored.(audit := stored.audit.(createdBy := Some(actor)));
    forall f | f !in {CreatedBy} ensures Column(stored, f) == Column(current, f) {
      assert AuditColumn(stored.audit, f) == AuditColumn(current.audit, f);
    }
    PersistUnlisted(stored, current, {CreatedBy});
    SaveRecordsOneReference(current.audit, false, 0);
    assert Plan(false, true, Some({CreatedBy})) == UpdateColumns({CreatedBy});
  }

  /** Who `authenticate` returns: the primary key and whether the account is
      active. */
  datatype Principal = Principal(id: Uuid, isActive: bool)

  datatype Credentials = Credentials(email: string, password: string)

  /** `LoginSerializer.validate`. `authenticate` is the configured backends'
      verdict on (normalised email, password). The returned attributes are the
      ones given, original email included, with the user attached. */
  function ValidateLogin(attrs: Credentials, authenticate: (string, string) -> Option<Principal>): (r: Result<(Credentials, Principal), Errors>)
    ensures var found := authenticate(NormalizeEmail(attrs.email), attrs.password);
      && (found.None? ==> r == Err(map[NonFieldErrors := [BadCredentials]]))
      && (found.Some? && !found.value.isActive ==> r == Err(map[NonFieldErrors := [AccountDisabled]]))
      && (found.Some? && found.value.isActive ==> r == Ok((attrs, found.value)))
  {
    match authenticate(NormalizeEmail(attrs.email), attrs.password)
    case None => Err(map[NonFieldErrors := [BadCredentials]])
    case Some(u) => if !u.isActive then Err(map[NonFieldErrors := [AccountDisabled]]) else Ok((attrs, u))
  }

  /** Login cannot tell a wrong password from an unknown email: every failed
      authentication gives the one same error. */
  lemma {:induction false} LoginFailureIsUniform(a: Credentials, b: Credentials, authenticate: (string, string) -> Option<Principal>)
    requires authenticate(NormalizeEmail(a.email), a.password).None?
    requires authenticate(NormalizeEmail(b.email), b.password).None?
    ensures ValidateLogin(a, authenticate) == ValidateLogin(b, authenticate)
  {
  }

  /** Two spellings of one email that differ only in case, with the same
      password, authenticate the same principal. */
  lemma {:induction false} LoginIgnoresCase(a: Credentials, b: Credentials, authenticate: (string, string) -> Option<Principal>)
    requires Lower(a.email) == Lower(b.email) && a.password == b.password
    ensures ValidateLogin(a, authenticate).Ok? == ValidateLogin(b, authenticate).Ok?
    ensures ValidateLogin(a, authenticate).Ok? ==> ValidateLogin(a, authenticate).value.1 == ValidateLogin(b, authenticate).value.1
  {
    var e := NormalizeEmail(a.email);
    assert e == NormalizeEmail(b.email);
    assert authenticate(e, a.password) == authenticate(NormalizeEmail(b.email), b.password);
  }

  datatype PasswordChange = PasswordChange(oldPassword: string, newPassword: string, newPassword2: string)

  /** `ChangePasswordSerializer.validate`: the two new passwords must agree. */
  function ValidateNewPasswords(attrs: PasswordChange): (r: Result<PasswordChange, Errors>)
    ensures r.Err? <==> attrs.newPassword != attrs.newPassword2
    ensures r.Ok? ==> r.value == attrs
    ensures r.Err? ==> r.error == map["new_password" := [PasswordsDiffer]]
  {
    if attrs.newPassword != attrs.newPassword2 then Err(map["new_password" := [PasswordsDiffer]]) else Ok(attrs)
  }

  /** The whole validation of a password change: `validate_password` on the new
      password (its complaints are `problems`), then `validate`. */
  function ValidatePasswordChange(attrs: PasswordChange, problems: seq<string>): (r: Result<PasswordChange, Errors>)
    ensures r.Ok? <==> problems == [] && attrs.newPassword == attrs.newPassword2
    ensures r.Ok? ==> r.value == attrs
    ensures r.Err? ==> r.error.Keys == {"new_password"}
    ensures problems != [] ==> r == Err(map["new_password" := problems])
  {
    if problems != [] then Err(map["new_password" := problems]) else ValidateNewPasswords(attrs)
  }
}
