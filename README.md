# django-drf-auth account core, modelled in Dafny

This project models the account backend of a Django REST Framework service,
and proves properties of that model:

- **The `User` model and the abstract `BaseModel`.** Both carry an audit trail
  (`created_by`, `updated_by`, `deleted_by` and three timestamps) and soft
  deletion (`is_active`, `is_deleted`).
- **Managers.** The soft-delete aware query views.
- **Registration, login and password-change serializers.** This includes the
  registration username loop: `base`, `base1`, `base2`, and so on.
- **Profile serializers.** The partial profile update and the linked-account
  summary.
- **`UserService`.** Account creation and deactivation.
- **Views.** Disconnecting a linked social account, changing the password,
  logging out, and listing the linked accounts.
- **Response envelopes.** `success` and `error`, and the global exception
  handler.

## How the model is built

The record store is a class holding `rows: map<Uuid, Row>`. A model instance is
a class with one field per Python attribute, plus `adding`, which stands for
Django's `_state.adding`. Methods such as `save`, `soft_delete` and `restore`
assign those fields step by step, as the Python does. They then call the
model's `Save`.

`Save` follows what Django's `Model.save` does for a model whose UUID primary
key has a default (module `Orm`):

- `update_fields=[]` writes nothing.
- An instance still being added is INSERTed as a whole row. This fails if its
  primary key is already stored.
- Otherwise the save is an UPDATE. With `update_fields`, it writes only the
  listed columns and fails when no row matches. Without `update_fields`, it
  writes the whole row and falls back to an INSERT when no row matches.
- `auto_now_add` stamps `created_at` on an INSERT. `auto_now` stamps
  `updated_at` on every write that covers that column.

Every state-changing method states its whole new state and the new table
through these functions. The properties the source promises are proved as
lemmas about those functions:

- what a save stores;
- which columns it leaves alone;
- what the managers then show.

Inputs the code obtains from elsewhere enter the model as parameters:

- the wall clock (`now`);
- the UUID default (`newId`, `newPk`);
- the rows the custom user manager shows (`visible`);
- the verdict of the authentication backends (`authenticate`);
- the complaints of `validate_password`;
- simplejwt's blacklisting (`blacklist`);
- the response of DRF's own `exception_handler` (`drf`).

Stored passwords are abstracted: `Usable(raw)` means the password was set from
`raw`, and `Unusable` matches nothing. Under this abstraction, `check_password`
is equality and `set_password` stores `Usable(new)`.

Two behaviours of the code are proved as they are written:

- **`BaseModel.save` never records a creator by itself.** It records a creator
  only when `not self.pk`. But the UUID default gives every instance a primary
  key at construction, so a new instance saved by a user gets `updated_by` and
  no `created_by`. `CommonModels.FirstSaveByUser` shows this.
- **`User.save` does the opposite of `BaseModel.save`.** It records the
  creator on the creating save and the updater on every later save.
  `UserModels.CreatingSaveDiffersFromBaseModel` proves the contrast.

The profile update lists `updated_at` among the fields it saves. Despite the
source comment about avoiding `auto_now`, `updated_at` is therefore stamped, and
the model stamps it.

## Model

| member | source | states |
|---|---|---|
| Records.SoftDeleted | apps/users/models.py:112-116 | `soft_delete` makes the record inactive and deleted and stamps `deleted_at`. It records the deleter only when a user is given. No other column changes. |
| Records.Restored | apps/users/models.py:121-126 | `restore` makes the record active and not deleted. It clears `deleted_at` and `deleted_by` whether or not a user is given, and records the restorer as updater only when one is given. No other column changes. |
| Records.SoftDeleteThenRestore | apps/authentication/tests/test_authentication.py:170-176 | `soft_delete` then `restore` leaves the record live, with no deletion stamp or deleter. Every column outside the restore list is as it was before the deletion. |
| Records.PersistAudit | common/models.py:95 | An UPDATE with `update_fields` writes exactly the listed audit columns from the instance and keeps the other stored columns. |
| Orm.Plan | apps/users/models.py:106 | Which write Django's `Model.save` performs, with if-and-only-if conditions per outcome: skip, insert, full update, column update, or failure. |
| Orm.Stamp | apps/users/models.py:33-34 | `auto_now_add` stamps `created_at` on insert only. `auto_now` stamps `updated_at` on every write that covers it. No other column moves. |
| Orm.Apply | apps/users/models.py:106 | The table after the write. An insert or full update stores the whole instance at its key. A column update of a stored row stores the merge of stored row and instance. A skip, a rejected save, or a column update without a matching row leaves the table as it was. Every other key keeps its row. |
| Orm.StillAdding | apps/users/models.py:106 | `_state.adding` is cleared by an INSERT and unchanged by every other outcome. |
| CommonModels.SaveAudit | common/models.py:131-139 | `BaseModel.save(user)` records a creator only when there is no primary key, a user is given and no creator is set. It records the updater whenever a user is given. Nothing else changes. |
| CommonModels.SaveKeepsCreator | common/models.py:134 | A recorded `created_by` is never overwritten, and a save without a user changes no audit column. |
| CommonModels.BaseModel.constructor | common/models.py:29 | A new instance already has its UUID primary key, is being added, and starts with the default audit block. |
| CommonModels.BaseModel.Save | common/models.py:123-141 | The whole new instance and table state of `save(user, update_fields)`, in terms of `SaveAudit`, `Plan`, `Stamp` and `Apply`. |
| CommonModels.BaseModel.SoftDelete | common/models.py:80-95 | The assignments of `soft_delete`, then a save that writes exactly its four columns. |
| CommonModels.BaseModel.Restore | common/models.py:97-121 | The assignments of `restore`, then a save that writes exactly its five columns. |
| CommonModels.SoftDeleteStoresOnlyItsColumns | common/models.py:90-95 | The stored row after `soft_delete` is inactive, deleted and stamped, with the deleter set only when given. Every column not listed is as stored. |
| CommonModels.FirstSaveByUser | common/models.py:133-135 | The first save of a new instance by a user inserts it with `updated_by` set and `created_by` still unset. |
| Managers.Active | common/managers.py:7-9 | A row is in `active()` iff it is in the table, active and not deleted. The rows themselves are unchanged. |
| Managers.Deleted | common/managers.py:11-13 | A row is in `deleted()` iff it is in the table and deleted. |
| Managers.DefaultView | common/managers.py:23-25 | `BaseManager` shows exactly `active()` of all rows. |
| Managers.AllObjects | common/managers.py:31-33 | `AllObjectsManager` shows every row. |
| Managers.ViewsPartition | common/managers.py:7-13 | `active()` and `deleted()` are disjoint, and each is part of the table. |
| Managers.SoftDeletedHiddenButKept | common/managers.py:23-33 | A soft-deleted row is absent from the default view but present in `all_objects` and in `deleted()`. |
| Managers.RestoredVisibleAgain | common/managers.py:23-25 | A row stored by `restore` is back in the default view and out of `deleted()`. |
| UserModels.Column | apps/users/models.py:21-68 | Audit columns of a user row read through the shared audit block, and every column has a value. |
| UserModels.ColumnsDetermine | apps/users/models.py:21-68 | Two user rows that agree on every column are equal. |
| UserModels.Persist | apps/users/models.py:117 | An UPDATE with `update_fields` writes exactly the listed columns of the users table and keeps the rest as stored. |
| UserModels.SaveAudit | apps/users/models.py:96-104 | `User.save(user)` records the creator only when the instance is being added, and the updater only when it is not. Nothing else changes. |
| UserModels.SaveRecordsOneReference | apps/users/models.py:99-104 | With a user, a save sets exactly one of `created_by` and `updated_by`. Without a user, it sets neither. |
| UserModels.CreatingSaveDiffersFromBaseModel | apps/users/models.py:99-104 | On a creating save, `User` records the creator and not the updater, while `BaseModel` does the reverse. |
| UserModels.FullName | apps/users/models.py:141-144 | `full_name` is the email when `"first last"` is all whitespace. Otherwise it is exactly `"first last".strip()`, which is non-empty. |
| UserModels.FullNameOfTrimmedNames | apps/users/models.py:143 | Trimmed first and last names give exactly `"first last"`. |
| UserModels.FullNameOfFirstNameOnly | apps/users/models.py:143 | A trimmed first name with no last name gives the first name alone, without the space. |
| UserModels.FullNameOfNoNames | apps/users/models.py:144 | No names at all give the email. |
| UserModels.User.constructor | apps/users/models.py:21-68 | A new user has its UUID, the given attributes, no avatar, an empty bio and the default audit block, and is being added. |
| UserModels.User.Save | apps/users/models.py:89-106 | The whole new instance and table state of `save(user, update_fields)`. |
| UserModels.User.SoftDelete | apps/users/models.py:108-117 | The assignments of `soft_delete`, then a save of its four columns. |
| UserModels.User.Restore | apps/users/models.py:119-135 | The assignments of `restore`, then a save of its five columns. |
| UserModels.SoftDeleteWritesOnlyItsColumns | apps/users/models.py:112-117 | The stored user row after `soft_delete` is inactive, deleted and stamped, with the deleter when given. Every other column is as stored. |
| UserModels.RestoreWritesOnlyItsColumns | apps/users/models.py:121-135 | The stored user row after `restore` is live, with no deletion stamp or deleter, and the restorer as updater when given. Every other column is as stored. |
| UserModels.ManagerCreateUser | apps/authentication/serializers.py:103-110 | The insert succeeds iff no stored row, hidden or not, has the email (the unique column, apps/users/models.py:24). On success the new row holds the given attributes and a usable password. On failure the table is unchanged. |
| UserModels.PersistUnlisted | apps/authentication/serializers.py:114-115 | Saving only the changed column over an otherwise equal stored row stores the instance itself. |
| AuthSerializers.NormalizeEmail | apps/authentication/serializers.py:63 | The normalised email is `strip(lower(value))`. It has no upper-case letters and no surrounding whitespace. |
| AuthSerializers.NormalFormFixed | apps/authentication/serializers.py:63 | An email already lower-case and trimmed normalises to itself. |
| AuthSerializers.Emails | apps/authentication/serializers.py:64 | The emails of exactly the rows the default manager shows. They are part of all stored emails. |
| AuthSerializers.Usernames | apps/authentication/serializers.py:97 | The usernames of exactly the visible rows that have one. |
| AuthSerializers.HiddenEmailPassesCheck | apps/authentication/serializers.py:64 | An email held only by a soft-deleted row passes the uniqueness check, yet it is among the stored emails. |
| UserModels.StoredEmails | apps/users/models.py:24 | The emails of every stored row, soft-deleted ones included. |
| AuthSerializers.NormalizeEmailIdempotent | apps/authentication/serializers.py:63 | Normalising twice is normalising once. |
| AuthSerializers.ValidateEmail | apps/authentication/serializers.py:61-66 | Accepted iff the normalised email is not among existing emails. The accepted value is the normalised email; otherwise the error message is the fixed one. |
| AuthSerializers.ValidatedEmailIsNormal | apps/authentication/serializers.py:63-66 | An accepted email is already in normal form. |
| AuthSerializers.SpellingsOfTakenEmailRefused | apps/authentication/serializers.py:63-65 | Any spelling of an existing email that normalises to it is refused. |
| AuthSerializers.ValidateRegistrationPasswords | apps/authentication/serializers.py:53-59 | Fails, keyed `password`, iff the two passwords differ. Otherwise it returns the attributes unchanged. |
| AuthSerializers.ValidateRegistration | apps/authentication/serializers.py:53-66 | Field errors (email, password strength) come first, and the match check runs only without them. Accepted iff all checks pass; the result carries the normalised email. |
| AuthSerializers.Candidate | apps/authentication/serializers.py:95-100 | The k-th username tried is the local part when k is 0. Otherwise it is the local part followed by exactly the decimal digits of k. |
| AuthSerializers.CandidateInjective | apps/authentication/serializers.py:99 | Distinct suffixes give distinct usernames. |
| AuthSerializers.UniqueUsername | apps/authentication/serializers.py:95-100 | The loop terminates. Its result is not an existing username and is the candidate with the least free suffix. It is the bare local part when that is free. |
| AuthSerializers.AuthenticatedActor | apps/authentication/serializers.py:113 | There is an actor iff there is a request whose user is authenticated, and the actor is that user. |
| AuthSerializers.Register | apps/authentication/serializers.py:82-117 | The insert succeeds iff the email is not stored by any row. Otherwise it raises and nothing is written. On success exactly one new row is added, with the generated fresh, minimal username, the given attributes and a usable password; `created_by` is the requester exactly when authenticated. |
| AuthSerializers.RecordCreator | apps/authentication/serializers.py:114-115 | The second save writes `created_by` alone, without stamping `updated_at`. |
| AuthSerializers.CreatorColumnOnly | apps/authentication/serializers.py:114-115 | Saving `created_by` alone over the inserted row stamps no timestamp and stores exactly the instance with its creator. |
| AuthSerializers.ValidateLogin | apps/authentication/serializers.py:132-149 | Authenticates the normalised email. No user gives "Invalid email or password."; an inactive user gives "User account is disabled."; otherwise the original attributes come back with the user. |
| AuthSerializers.LoginFailureIsUniform | apps/authentication/serializers.py:142-143 | Every failed authentication gives the same error, whatever the email or password. |
| AuthSerializers.LoginIgnoresCase | apps/authentication/serializers.py:133-140 | Emails differing only in case log in identically. |
| AuthSerializers.ValidateNewPasswords | apps/authentication/serializers.py:208-214 | Fails, keyed `new_password`, iff the two new passwords differ. Otherwise it returns the attributes unchanged. |
| AuthSerializers.ValidatePasswordChange | apps/authentication/serializers.py:195-214 | Strength complaints come first, then the match check. All errors are keyed `new_password`. |
| SocialAccounts.Filter | apps/users/serializers.py:61 | `filter(...)` keeps exactly the matching accounts, each as many times as it is stored and no non-matching one. |
| SocialAccounts.FilterConcat | apps/authentication/views.py:143 | Filtering distributes over concatenation, so the matches stay in storage order. |
| SocialAccounts.FilterAllMatch | apps/authentication/views.py:144 | A filter that every account matches returns the list unchanged. The delete therefore keeps all other accounts, in order. |
| SocialAccounts.ExceptOwned | apps/authentication/views.py:143-144 | Deleting one account shortens its owner's list by one, and other users' lists keep their length. |
| UserSerializers.ApplyEdit | apps/users/serializers.py:84-85 | `setattr` sets the named column to the value and keeps every other column. |
| UserSerializers.ApplyEdits | apps/users/serializers.py:84-85 | The edits applied in order. A column no edit names keeps its value, and the last edit's field holds its value. |
| UserSerializers.ApplyEditsColumns | apps/users/serializers.py:84-85 | The update assigns exactly the provided fields, each its value. Every other column, email and password included, is kept. |
| UserSerializers.Keys | apps/users/serializers.py:77 | The provided fields are always among the five writable ones. |
| UserSerializers.AssignEdits | apps/users/serializers.py:84-85 | The `setattr` loop leaves the instance equal to the edits applied in order. |
| UserSerializers.UpdateProfile | apps/users/serializers.py:79-96 | Assigns the edits, records the requester as updater, saves the provided fields plus `updated_by` and `updated_at`, and returns the same instance. |
| UserSerializers.UpdateFields | apps/users/serializers.py:92-94 | The saved columns include every provided field and never email, username or password. |
| UserSerializers.Edited | apps/users/serializers.py:84-94 | The row saved by an update holds each edit, the requester as updater if any, and `updated_at = now`. |
| UserSerializers.UpdateProfileStores | apps/users/serializers.py:84-94 | The stored row holds each edited value, the requester as updater when there is one, and `updated_at = now`. |
| UserSerializers.UpdateProfileKeepsOthers | apps/users/serializers.py:92-94 | Every unlisted column keeps its stored value, so email, username and password never change. |
| UserSerializers.GetSocialAccounts | apps/users/serializers.py:59-69 | One `{provider, uid, date_joined}` entry per account of the user, in order. |
| UserServices.CreateUser | apps/users/services.py:12-29 | An email among the visible users, compared exactly as given, raises `ValueError` and creates nothing. An email held only by a hidden row raises `IntegrityError` at the insert and creates nothing. Otherwise exactly one row is inserted with that email and the bare local part as username. |
| UserServices.CaseVariantNotRejected | apps/users/services.py:16 | Unlike registration, the service does not catch an email that differs from an existing one only in case. |
| UserServices.DeactivateUser | apps/users/services.py:44-52 | Sets `is_active` false, saves that column alone, and returns the same user. |
| UserServices.DeactivateWritesOnlyIsActive | apps/users/services.py:46-47 | The stored row changes in `is_active` alone, without even an `updated_at` stamp. |
| AuthViews.Picture | apps/authentication/views.py:109-112 | `picture` when truthy, otherwise `avatar_url`. |
| AuthViews.Listing | apps/authentication/views.py:99-114 | One entry carries the account's id, provider, uid and dates, plus `email` and `name` from the profile data and the picture fallback. |
| AuthViews.PictureFallsBack | apps/authentication/views.py:109-112 | An absent or empty `picture` falls back to `avatar_url`. |
| AuthViews.ListAccounts | apps/authentication/views.py:96-118 | One listing entry per account of the user, in order. |
| AuthViews.Decide | apps/authentication/views.py:135-159 | Lock-out iff exactly one account and no usable password. Otherwise: no match gives not connected, several matches are ambiguous, and exactly one match is unlinked. |
| AuthViews.Disconnect | apps/authentication/views.py:130-159 | The exact response per outcome: 400, 404, the handler's 500, or success with the title-cased provider. The table changes only on unlink, and then loses exactly that account. |
| AuthViews.DisconnectNeverLocksOut | apps/authentication/views.py:135-144 | After a successful disconnect, the user keeps a linked account or has a usable password. |
| AuthViews.DisconnectRemovesOnlyThatAccount | apps/authentication/views.py:143-151 | The removed account is the user's account for that provider. The user's list shrinks by one and the user keeps every other account. |
| AuthViews.LockOutBeforeLookup | apps/authentication/views.py:135-143 | A password-less user with one account of another provider gets the lock-out, not "not connected". |
| AuthViews.ErrorsJson | apps/authentication/views.py:211 | Rendered validation errors have exactly the failing fields as keys. Each field maps to the array of its messages, in order. |
| AuthViews.ChangePassword | apps/authentication/views.py:209-232 | A validation failure gives the handler's 400 and a wrong old password gives the fixed 400; neither changes anything. Otherwise the password becomes the new one, the user is the updater, and the row is saved in full. The response is success, or the handler's 500 when the database refuses the save. |
| AuthViews.NewPasswordReplacesOld | apps/authentication/views.py:224 | After a change, the new password checks, and the old one checks only if it equals the new one. |
| AuthViews.Logout | apps/authentication/views.py:244-273 | A missing or falsy `refresh` gives 400. Otherwise: success, 401 with the token error, or 500 with the failure text. |
| AuthViews.LogoutChecksTokenFirst | apps/authentication/views.py:247-252 | A missing token is refused with 400 whatever the blacklist would do. |
| AuthViews.LogoutFailuresCarryDetail | apps/authentication/views.py:261-273 | Logout failures always carry `errors.detail`, with status 401 for token errors and 500 otherwise. |
| Responses.Success | common/responses.py:5-21 | `message` is always present. `data` is present iff it is not `None`. There are no other keys, and the status is passed through (default 200). |
| Responses.Error | common/responses.py:24-40 | `message` is always present. `errors` is present iff it is truthy. There are no other keys, and the status is passed through (default 400). |
| Responses.EmptyObjectIncludedOnlyAsData | common/responses.py:19-20 | An empty dict is kept as `data` but dropped as `errors`. |
| Exceptions.ErrorMessage | common/exceptions.py:61-69 | Validation errors first, then authentication failures, then `default_detail`, then the text if non-empty, else "An error occurred". |
| Exceptions.HandleException | common/exceptions.py:16-58 | A DRF-handled exception keeps its status and gets `{message, errors: data}`. `Http404` gives 404 with the detail. Anything else gives a fixed 500. |
| Exceptions.UnhandledHidesText | common/exceptions.py:46-56 | The 500 response does not depend on the exception, so its text never reaches the client. |
| Exceptions.ValidationKeepsFieldErrors | common/exceptions.py:31-33 | A validation error keeps DRF's status and field errors under the message "Validation failed". |
| JsonData.Get | apps/authentication/views.py:245 | `dict.get` gives the stored value, or `None` for a missing key. |
| Text.Strip | apps/users/models.py:143 | `strip()` is the input minus exactly its blank head and blank tail. It leaves no surrounding whitespace, and gives the empty string iff the input is all whitespace. |
| Text.Lower | apps/authentication/serializers.py:63 | `lower()` keeps the length and lower-cases every character. |
| Text.StripIdempotent | apps/users/models.py:143 | Stripping twice is stripping once. |
| Text.LocalPart | apps/authentication/serializers.py:95 | `split("@")[0]` is the prefix before the first `@`, or the whole string. |
| Text.Title | apps/authentication/views.py:151 | `title()` upper-cases the first letter of each word and lower-cases the rest. |
| Text.ParseDecimalInverts | apps/authentication/serializers.py:99 | `str(k)` can be read back to `k`. |
| Text.Decimal | apps/authentication/serializers.py:99 | `str(n)` is a non-empty string of digits without a leading zero. |

## Left out

- JWT minting, signing, expiry and rotation are simplejwt's. Blacklisting is an oracle input of `Logout`.
- The OAuth login views, email verification and password reset are library views, with no logic of this repository.
- Password hashing and strength validation are abstracted. `set_password` stores `Usable(raw)`, `check_password` is equality, and `validate_password` becomes a list of complaints given as input.
- `authenticate` is an oracle. Whether it ever returns an inactive user depends on the configured backends, which are not part of this model.
- The custom user manager (`CustomUserManager`) is not part of this model:
  - Its visible rows are an input (`visible`).
  - `create_user` is taken to build the instance, set the password and insert it, as Django's standard manager does.
  - A normalisation it might perform (such as lower-casing the domain) is not modelled.
- The field validators that DRF adds are not modelled: required-field errors, e-mail format, whitespace trimming, maximum lengths and DRF's own unique validator on `email`. Validation starts from `validate_email` and `validate_password`. The database's unique index on `email` is modelled where a row is inserted (`ManagerCreateUser`).
- ValidateRegistration: DRF returns every field's errors together. The model covers the `email` and `password` fields only.
- Case mapping (`lower`, `title`) covers ASCII letters only. `strip` uses Python's complete whitespace set.
- `str(e)` of library exceptions is an input string. The text `.get()` puts in `MultipleObjectsReturned` is a fixed placeholder, which the 500 response never shows.
- `Logout`: a request body that is not a dictionary is not modelled. There, `request.data.get` would itself raise and give the 500 branch.
- The wall clock is an input instant, and UUID generation is an input id required to be fresh. A UUID collision is not modelled.
- Concurrency and transactions are not modelled. Every operation runs alone. The disconnect's count-then-delete is not atomic in the source, and the model claims no atomicity.
- Save: on a failed save, Django has already put the `pre_save` stamps into the instance. That is `auto_now` on a failed UPDATE, and `created_at` and `updated_at` on a failed INSERT of an instance whose key is already stored. The model leaves the instance unstamped on those paths.
- Dictionary key order in response bodies, logging, the welcome email, and the AbstractUser fields the backend never touches are left out.
- `custom_exception_handler` overwrites `response.data` on the response DRF just built. That response is fresh, so the model returns the final response as a value.
- Exceptions.HandleException: DRF's own handler is an input (`drf`). DRF converts `Http404` itself, so the handler's own `Http404` branch is reached only when that input is `None`.
- `hard_delete` and the selectors are out of scope.
- The timestamps of linked accounts are abstract instants. `date_joined` and `last_login` are not rendered as ISO strings.
- BaseModel.Save: `update_fields` may name audit columns only. A concrete subclass's own columns are not modelled, and neither is Django's `ValueError` for a name the model lacks.
- `Meta.ordering = ["-created_at"]` on `User` orders query results by creation time. The model's user table is a map, so no query over it has an order.
- The unique index on `email` is checked only at the INSERT of `create_user`. The other saves in the model never change the email, so the index cannot refuse them for that reason.
