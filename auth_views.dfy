/** The account views with logic of their own: listing and disconnecting linked
    social accounts, changing the password, and logging out. */
module AuthViews {
  import opened Records
  import opened Text
  import opened Orm
  import opened JsonData
  import opened Responses
  import opened Exceptions
  import opened UserModels
  import opened SocialAccounts
  import opened AuthSerializers

  /** One entry of the `SocialAccountsView` listing. */
  datatype AccountListing = AccountListing(
    id: nat,
    provider: string,
    uid: string,
    dateJoined: Timestamp,
    lastLogin: Timestamp,
    email: Json,
    name: Json,
    picture: Json)

  /** `extra_data.get("picture") or extra_data.get("avatar_url")` */
  function Picture(extra: map<string, Json>): (p: Json)
    ensures Truthy(Get(extra, "picture")) ==> p == Get(extra, "picture")
    ensures !Truthy(Get(extra, "picture")) ==> p == Get(extra, "avatar_url")
  {
    var picture := Get(extra, "picture");
    if Truthy(picture) then picture else Get(extra, "avatar_url")
  }

  /** One entry of the listing: the account's own columns, and `email`,
      `name` and the picture from the provider's profile data. */
  function Listing(a: SocialAccount): (l: AccountListing)
    ensures l.id == a.id && l.provider == a.provider && l.uid == a.uid
    ensures l.dateJoined == a.dateJoined && l.lastLogin == a.lastLogin
    ensures l.email == Get(a.extraData, "email") && l.name == Get(a.extraData, "name")
    ensures l.picture == Picture(a.extraData)
  {
    AccountListing(a.id, a.provider, a.uid, a.dateJoined, a.lastLogin,
                   Get(a.extraData, "email"), Get(a.extraData, "name"), Picture(a.extraData))
  }

  /** `SocialAccountsView.get`: one entry per account of the user, in order. */
  function ListAccounts(all: seq<SocialAccount>, user: Uuid): (r: seq<AccountListing>)
    ensures |r| == |OwnedBy(all, user)|
    ensures forall i | 0 <= i < |r| :: r[i] == Listing(OwnedBy(all, user)[i])
  {
    var own := OwnedBy(all, user);
    seq(|own|, i requires 0 <= i < |own| => Listing(own[i]))
  }

  /** A GitHub-style profile without `picture` falls back to `avatar_url`;
      an empty `picture` does too. */
  lemma PictureFallsBack(extra: map<string, Json>, url: string)
    requires "avatar_url" in extra && extra["avatar_url"] == Str(url)
    requires "picture" !in extra || extra["picture"] == Str([])
    ensures Picture(extra) == Str(url)
  {
  }

  /** What `DisconnectSocialAccountView.delete` decides from the user's linked
      accounts, whether the user has a usable password, and the provider. */
  datatype Disconnection =
    | LockedOut
    | NotConnected
    | Ambiguous
    | Unlink(account: SocialAccount)

  function Decide(own: seq<SocialAccount>, usable: bool, provider: string): (d: Disconnection)
    ensures d.LockedOut? <==> |own| == 1 && !usable
    ensures d.NotConnected? <==> !(|own| == 1 && !usable) && WithProvider(own, provider) == []
    ensures d.Ambiguous? <==> !(|own| == 1 && !usable) && |WithProvider(own, provider)| > 1
    ensures d.Unlink? <==> !(|own| == 1 && !usable) && |WithProvider(own, provider)| == 1
    ensures d.Unlink? ==> d.account == WithProvider(own, provider)[0] && d.account in own
  {
    if |own| == 1 && !usable then LockedOut
    else
      var matching := WithProvider(own, provider);
      if matching == [] then NotConnected
      else if |matching| > 1 then Ambiguous
      else Unlink(matching[0])
  }

  const OnlyLoginMethod := "Cannot disconnect the only login method. Please set a password first."

  /** The exception `.get()` raises when several accounts match. */
  const MultipleAccounts := Exc(false, false, false, None, "get() returned more than one SocialAccount")

  /** `DisconnectSocialAccountView.delete(request, provider)` for the user
      `user`, whose `has_usable_password()` is `usable`. */
  method Disconnect(table: SocialAccountTable, user: Uuid, usable: bool, provider: string) returns (resp: Response)
    modifies table
    ensures var d := Decide(OwnedBy(old(table.accounts), user), usable, provider);
      && (d.Unlink? ==> table.accounts == Except(old(table.accounts), d.account.id))
      && (!d.Unlink? ==> table.accounts == old(table.accounts))
      && resp == match d
         case LockedOut =>
           Error(OnlyLoginMethod, Obj(map["provider" := Str("Cannot disconnect the only login method")]), HTTP_400_BAD_REQUEST)
         case NotConnected =>
           Error("No " + provider + " account is connected", Obj(map["provider" := Str(provider + " account not found")]), HTTP_404_NOT_FOUND)
         case Ambiguous => HandleException(MultipleAccounts, None)
         case Unlink(_) => Success(Title(provider) + " account disconnected successfully")
  {
    var own := OwnedBy(table.accounts, user);
    if |own| == 1 && !usable {
      return Error(OnlyLoginMethod, Obj(map["provider" := Str("Cannot disconnect the only login method")]), HTTP_400_BAD_REQUEST);
    }
    var matching := WithProvider(own, provider);
    if matching == [] {
      return Error("No " + provider + " account is connected", Obj(map["provider" := Str(provider + " account not found")]), HTTP_404_NOT_FOUND);
    }
    if |matching| > 1 {
      return HandleException(MultipleAccounts, None);
    }
    table.accounts := Except(table.accounts, matching[0].id);
    resp := Success(Title(provider) + " account disconnected successfully");
  }

  /** A successful disconnect never leaves the user without any way to log in:
      some linked account remains, or the password is usable. */
  lemma {:induction false} DisconnectNeverLocksOut(all: seq<SocialAccount>, user: Uuid, usable: bool, provider: string)
    requires UniqueIds(all)
    requires Decide(OwnedBy(all, user), usable, provider).Unlink?
    ensures var after := Except(all, Decide(OwnedBy(all, user), usable, provider).account.id);
            |OwnedBy(after, user)| >= 1 || usable
  {
    var a := Decide(OwnedBy(all, user), usable, provider).account;
    ExceptOwned(all, user, a);
  }

  /** A successful disconnect removes exactly the matching account: the user
      keeps every other account, and the user's list shrinks by one. */
  lemma {:induction false} DisconnectRemovesOnlyThatAccount(all: seq<SocialAccount>, user: Uuid, usable: bool, provider: string)
    requires UniqueIds(all)
    requires Decide(OwnedBy(all, user), usable, provider).Unlink?
    ensures var a := Decide(OwnedBy(all, user), usable, provider).account;
            var after := Except(all, a.id);
            && a.user == user && a.provider == provider
            && |OwnedBy(after, user)| == |OwnedBy(all, user)| - 1
            && (forall b | b in OwnedBy(all, user) && b.id != a.id :: b in OwnedBy(after, user))
            && a !in OwnedBy(after, user)
  {
    var a := Decide(OwnedBy(all, user), usable, provider).account;
    ExceptOwned(all, user, a);
  }

  /** The lock-out check comes before the provider lookup: a user without a
      usable password whose one account is for another provider gets 400,
      not 404. */
  lemma LockOutBeforeLookup(account: SocialAccount, provider: string)
    requires account.provider != provider
    ensures Decide([account], false, provider) == LockedOut
    ensures WithProvider([account], provider) == []
  {
  }

  /** DRF's rendering of validation errors: each field maps to its list of
      messages. */
  function ErrorsJson(errors: Errors): (j: Json)
    ensures j.Obj? && j.fields.Keys == errors.Keys
    ensures forall f | f in errors ::
              && j.fields[f].Arr? && |j.fields[f].items| == |errors[f]|
              && forall i | 0 <= i < |errors[f]| :: j.fields[f].items[i] == Str(errors[f][i])
  {
    Obj(map f | f in errors :: Arr(seq(|errors[f]|, i requires 0 <= i < |errors[f]| => Str(errors[f][i]))))
  }

  const ValidationFailure := Exc(true, false, false, Some("Invalid input."), "")

  /** The `IntegrityError` of a save the database refuses. */
  const SaveFailed := Exc(false, false, false, None, "IntegrityError")

  /** `ChangePasswordView.post` for the requesting user `user`. `problems` are
      the complaints of `validate_password` about the new password. */
  method ChangePassword(user: User, db: UserTable, attrs: PasswordChange, problems: seq<string>, now: Timestamp)
    returns (resp: Response)
    modifies user, db
    ensures var v := ValidatePasswordChange(attrs, problems);
      && (v.Err? ==> resp == HandleException(ValidationFailure, Some(Handled(HTTP_400_BAD_REQUEST, ErrorsJson(v.error))))
                     && user.Snapshot() == old(user.Snapshot()) && db.rows == old(db.rows))
      && (v.Ok? && !CheckPassword(old(user.password), attrs.oldPassword) ==>
            resp == Error("Old password is incorrect", Obj(map["old_password" := Str("The password you entered is incorrect")]), HTTP_400_BAD_REQUEST)
            && user.Snapshot() == old(user.Snapshot()) && db.rows == old(db.rows))
      && (v.Ok? && CheckPassword(old(user.password), attrs.oldPassword) ==>
            var w := Plan(old(user.adding), user.id in old(db.rows), None);
            var changed := old(user.Snapshot()).(password := Usable(attrs.newPassword));
            && resp == (if w.Reject? then HandleException(SaveFailed, None) else Success("Password changed successfully"))
            && user.Snapshot() == StampRow(changed.(audit := changed.audit.(updatedBy := Some(user.id))), now, w)
            && db.rows == Apply(old(db.rows), user.id, w, user.Snapshot(), Persist))
  {
    var v := ValidatePasswordChange(attrs, problems);
    if v.Err? {
      return HandleException(ValidationFailure, Some(Handled(HTTP_400_BAD_REQUEST, ErrorsJson(v.error))));
    }
    if !CheckPassword(user.password, attrs.oldPassword) {
      return Error("Old password is incorrect", Obj(map["old_password" := Str("The password you entered is incorrect")]), HTTP_400_BAD_REQUEST);
    }
    ghost var changed := user.Snapshot().(password := Usable(attrs.newPassword));
    user.password := Usable(attrs.newPassword);
    user.updatedBy := Some(user.id);
    assert user.Snapshot() == changed.(audit := changed.audit.(updatedBy := Some(user.id)));
    SaveRecordsOneReference(user.AuditRow(), user.adding, 0);
    var saved := user.Save(db, None, None, now);
    if !saved {
      return HandleException(SaveFailed, None);
    }
    resp := Success("Password changed successfully");
  }

  /** After a successful change the new password checks and the old one no
      longer does (unless they are the same). */
  lemma {:induction false} NewPasswordReplacesOld(stored: PasswordHash, attrs: PasswordChange)
    requires CheckPassword(stored, attrs.oldPassword)
    ensures CheckPassword(Usable(attrs.newPassword), attrs.newPassword)
    ensures CheckPassword(Usable(attrs.newPassword), attrs.oldPassword) <==> attrs.oldPassword == attrs.newPassword
  {
  }

  /** What blacklisting a refresh token can do: succeed, raise simplejwt's
      `TokenError`, or raise anything else; the string is `str(e)`. */
  datatype Blacklisting = Blacklisted | TokenError(message: string) | Failure(message: string)

  /** `logout_view`. `blacklist` is `RefreshToken(token).blacklist()`, received
      as an oracle on the token value. */
  function Logout(data: map<string, Json>, blacklist: Json -> Blacklisting): (r: Response)
    ensures !Truthy(Get(data, "refresh")) ==>
              r == Error("Refresh token is required", Obj(map["refresh" := Str("This field is required")]), HTTP_400_BAD_REQUEST)
    ensures Truthy(Get(data, "refresh")) ==>
              match blacklist(Get(data, "refresh"))
              case Blacklisted => r == Success("Successfully logged out")
              case TokenError(e) => r == Error("Invalid or expired refresh token", Obj(map["detail" := Str(e)]), HTTP_401_UNAUTHORIZED)
              case Failure(e) => r == Error("Logout failed", Obj(map["detail" := Str(e)]), HTTP_500_INTERNAL_SERVER_ERROR)
  {
    var token := Get(data, "refresh");
    if !Truthy(token) then
      Error("Refresh token is required", Obj(map["refresh" := Str("This field is required")]), HTTP_400_BAD_REQUEST)
    else
      match blacklist(token)
      case Blacklisted => Success("Successfully logged out")
      case TokenError(e) => Error("Invalid or expired refresh token", Obj(map["detail" := Str(e)]), HTTP_401_UNAUTHORIZED)
      case Failure(e) => Error("Logout failed", Obj(map["detail" := Str(e)]), HTTP_500_INTERNAL_SERVER_ERROR)
  }

  /** A missing or empty token is refused before any token handling: the
      response does not depend on the blacklist at all. */
  lemma {:induction false} LogoutChecksTokenFirst(data: map<string, Json>, b1: Json -> Blacklisting, b2: Json -> Blacklisting)
    requires !Truthy(Get(data, "refresh"))
    ensures Logout(data, b1) == Logout(data, b2)
    ensures Logout(data, b1).status == HTTP_400_BAD_REQUEST
  {
  }

  /** Every logout failure carries its cause under `errors.detail`, even an
      empty message, since the errors object itself is never empty. */
  lemma {:induction false} LogoutFailuresCarryDetail(data: map<string, Json>, blacklist: Json -> Blacklisting)
    requires Truthy(Get(data, "refresh")) && !blacklist(Get(data, "refresh")).Blacklisted?
    ensures "errors" in Logout(data, blacklist).body
    ensures Logout(data, blacklist).status == (if blacklist(Get(data, "refresh")).TokenError? then HTTP_401_UNAUTHORIZED else HTTP_500_INTERNAL_SERVER_ERROR)
  {
    var e := blacklist(Get(data, "refresh"));
    assert Truthy(Obj(map["detail" := Str(e.message)])) by {
      assert "detail" in map["detail" := Str(e.message)];
    }
  }
}
