# User identity integrity: a Dafny model of UserServiceImpl

This project models the identity-integrity core of a user-management service:
the uniqueness check on usernames and emails that runs before every create and
update, the operations built on it (self-service registration, administrative
add, update, deletion, password reset, profile-image association), the login
lookup that applies the lock transition and shifts the login timestamps, and
the resolution of role names against the Role enumeration.

Layout, one module per file:

- `wrappers.dfy` (Wrappers): Option and Result, standing for Java's null and exceptions.
- `domain.dfy` (Domain): the User record, one constructor per exception, an
  image, and the two random generators, each mapping a sequence of random
  draws to a string (one digit per draw for the user id, one ASCII letter or
  digit per draw for the password).
- `text.dfy` (Text): StringUtils.isBlank (Character.isWhitespace) and String.toUpperCase.
- `roles.dfy` (Roles): getRoleEnumName over a Role enumeration given as a map
  from each constant's name to its authorities; a resolved constant carries
  its authorities, as the enumeration's constants do.
- `repository.dfy` (Repository): the user store, a class holding
  `map<int, User>` keyed by id, with save and deleteById; the finders by
  username and email; the uniqueness predicate.
- `login_attempts.dfy` (LoginAttempts): the attempt tracker, seen as the set of
  usernames whose attempts are exceeded, with its verdict and eviction; the
  lock transition.
- `validation.dfy` (Validation): validateUsernameAndEmail and the lemmas that
  the create and update paths keep the store free of duplicates.
- `user_service.dfy` (UserServiceImpl): the service class. Its invariant
  `Valid()` says that no two stored users share a username or an email, and that
  every user's authorities are exactly those of its enumerated role. Every
  operation requires and re-establishes it.
- `scenarios.dfy` (Scenarios): client methods showing what a caller can conclude
  from the contracts alone. Registering the same username twice conflicts. A
  lockout survives later lookups. Resetting an unknown email fails without a write.

Collaborators are parameters of the service. The password encoder and the two
image-URL builders are function-valued constants. The Role enumeration is a
map from constant names to authorities; it must contain ROLE_USER. The random
source is a sequence of 10 draws per generated string, passed as a method
argument. The clock is a `now` argument.

One would expect a lookup to unlock a locked account once its attempt count
has dropped below the threshold. The code never does: it never sets
`isNotLocked` back to true, and a locked account is only evicted from the
attempt cache. The model
follows the code, and `LoginAttempts.LockedStaysLocked` proves that no series
of lookups unlocks an account.

The update path is taken only when the current username is not blank. So a
user whose stored username is blank conflicts with itself when it resubmits
that username (`Validation.BlankUsernameConflictsWithItself`). For a user whose
username is not blank, resubmitting its own username and email never
conflicts (`Validation.SelfUpdateNeverConflicts`).

## Model

| member | source | states |
|---|---|---|
| Text.IsWhitespace | src/main/java/com/example/user/service/impl/UserServiceImpl.java:186 | a character counts as whitespace exactly when it is one of the characters listed for Character.isWhitespace |
| Text.IsBlank | src/main/java/com/example/user/service/impl/UserServiceImpl.java:186 | a string is blank exactly when every character is whitespace, so the empty string is blank |
| Text.UpperChar | src/main/java/com/example/user/service/impl/UserServiceImpl.java:263-265 | each letter of the lower-case ASCII alphabet maps to the letter at the same place in the upper-case alphabet; every other character is unchanged |
| Text.ToUpper | src/main/java/com/example/user/service/impl/UserServiceImpl.java:263-265 | the result has the input's length and is the character-wise upper-casing of it |
| Text.ToUpperIsUpperCase | src/main/java/com/example/user/service/impl/UserServiceImpl.java:263-265 | an upper-cased string has no lower-case letter |
| Text.UpperCaseIsFixed | src/main/java/com/example/user/service/impl/UserServiceImpl.java:263-265 | a string without lower-case letters is its own upper-casing |
| Text.ToUpperIdempotent | src/main/java/com/example/user/service/impl/UserServiceImpl.java:263-265 | upper-casing twice equals upper-casing once |
| Roles.GetRoleEnumName | src/main/java/com/example/user/service/impl/UserServiceImpl.java:263-265 | resolves exactly when the upper-cased name is a constant of the enumeration, to that constant with its own authorities, whose name is the character-wise upper-casing of the argument; otherwise fails with the unknown-role error |
| Roles.ResolutionIgnoresCase | src/main/java/com/example/user/service/impl/UserServiceImpl.java:263-265 | a role name and its upper-casing resolve to the same result |
| Roles.NameRoundTrip | src/main/java/com/example/user/service/impl/UserServiceImpl.java:263-265 | the name of an upper-case constant, as stored in `roles`, resolves back to that constant |
| Domain.GenerateUserId | src/main/java/com/example/user/service/impl/UserServiceImpl.java:226-228 | the id has one character per draw, and each is a digit |
| Domain.GenerateUserIdCovers | src/main/java/com/example/user/service/impl/UserServiceImpl.java:226-228 | every numeric string is an id the generator can produce |
| Domain.DrawOf | src/main/java/com/example/user/service/impl/UserServiceImpl.java:230-232 | every ASCII letter and digit is picked by some draw |
| Domain.GeneratePassword | src/main/java/com/example/user/service/impl/UserServiceImpl.java:230-232 | the password has one character per draw, and each is an ASCII letter or digit |
| Domain.GeneratePasswordCovers | src/main/java/com/example/user/service/impl/UserServiceImpl.java:230-232 | every alphanumeric string is a password the generator can produce |
| Repository.FindUserByUsername | src/main/java/com/example/user/service/impl/UserServiceImpl.java:174-177 | finds a stored user exactly when some stored user has that username, and the user found is a stored record with it; a null username finds nobody |
| Repository.FindUserByEmail | src/main/java/com/example/user/service/impl/UserServiceImpl.java:179-182 | finds a stored user exactly when some stored user has that email, and the user found is a stored record with it; a null email finds nobody |
| Repository.Store.Save | src/main/java/com/example/user/service/impl/UserServiceImpl.java:95 | a record whose id is stored replaces that record; any other record is inserted under a fresh id; nothing else in the store changes |
| Repository.Store.DeleteById | src/main/java/com/example/user/service/impl/UserServiceImpl.java:144-146 | removes exactly the record under the id; an absent id is an error and changes nothing |
| LoginAttempts.LoginAttemptService.EvictUserFromCache | src/main/java/com/example/user/service/impl/UserServiceImpl.java:221-223 | removes exactly that username from the exceeded set |
| LoginAttempts.LockedStaysLocked | src/main/java/com/example/user/service/impl/UserServiceImpl.java:214-224 | no series of lookups unlocks a locked account, whatever the tracker's verdicts |
| LoginAttempts.UnlockedUntilExceeded | src/main/java/com/example/user/service/impl/UserServiceImpl.java:214-224 | an unlocked account stays unlocked through a series of lookups exactly when no lookup saw the verdict exceeded |
| Validation.ValidateUsernameAndEmail | src/main/java/com/example/user/service/impl/UserServiceImpl.java:184-212 | create path (blank current username): UsernameExist if anyone has the new username, else EmailExist if anyone has the new email, else no user. Update path: UserNotFound if nobody has the current username; else UsernameExist, then EmailExist, only when a different record holds the new value; else the current record unchanged |
| Validation.SelfUpdateNeverConflicts | src/main/java/com/example/user/service/impl/UserServiceImpl.java:186-199 | a user with a non-blank username that resubmits its own username and email passes update validation and gets back its own record |
| Validation.BlankUsernameConflictsWithItself | src/main/java/com/example/user/service/impl/UserServiceImpl.java:186-205 | a user with a blank username that resubmits its own username and email is validated on the create path and fails with UsernameExist |
| Validation.NullCandidatesNeverConflict | src/main/java/com/example/user/service/impl/UserServiceImpl.java:162-199 | with null candidates the only possible failure is UserNotFound; a blank username gives no user; otherwise the result is the stored owner of the username |
| Validation.InsertKeepsUnique | src/main/java/com/example/user/service/impl/UserServiceImpl.java:79-95 | inserting a new record whose username and email passed create validation keeps every username and email unique |
| Validation.ReplaceKeepsUnique | src/main/java/com/example/user/service/impl/UserServiceImpl.java:129-138 | the validated current user is the stored record under its id, and replacing it with a record carrying the new username and email keeps every username and email unique |
| Validation.RewriteKeepsUnique | src/main/java/com/example/user/service/impl/UserServiceImpl.java:149-157 | rewriting a record without changing its id, username or email keeps every username and email unique |
| Validation.RemoveKeepsUnique | src/main/java/com/example/user/service/impl/UserServiceImpl.java:144-146 | deleting a record keeps every username and email unique |
| UserServiceImpl.UserService.LoadUserByUsername | src/main/java/com/example/user/service/impl/UserServiceImpl.java:61-73 | an unknown username fails with UsernameNotFound and changes neither the store nor the tracker. Otherwise the owner's record gets the lock transition for the tracker's verdict, the old last-login date as display date, and `now` as last-login date. Only that record is saved, and the tracker is evicted only for a locked account |
| UserServiceImpl.UserService.ValidateLoginAttempt | src/main/java/com/example/user/service/impl/UserServiceImpl.java:214-224 | the record changes only in `isNotLocked`, by the lock transition; a locked record stays locked; the tracker loses the username exactly when the account was locked |
| UserServiceImpl.UserService.Register | src/main/java/com/example/user/service/impl/UserServiceImpl.java:77-98 | UsernameExist exactly when the username is taken, else EmailExist exactly when the email is taken, with no write. Otherwise exactly one new record is saved under a fresh id: the given names, username and email, the user id generated from the draws (10 digits), the encoded generated password (10 letters or digits) and its plaintext, join date `now`, active, unlocked, ROLE_USER and its authorities, the default image URL, no login dates |
| UserServiceImpl.UserService.AddNewUser | src/main/java/com/example/user/service/impl/UserServiceImpl.java:101-123 | a validation failure, then an unknown role, fails with no write. Otherwise exactly one new record is saved under a fresh id, with the generated id and password, the given flags, the resolved role's name, exactly that role's authorities, and the stored image URL when an image is given |
| UserServiceImpl.UserService.UpdateUser | src/main/java/com/example/user/service/impl/UserServiceImpl.java:126-141 | a validation failure, a blank current username (create path, then a null dereference) or an unknown role fails with no write. Otherwise only the current user's record changes: names, username, email, flags, the resolved role's name and exactly its authorities, and the image URL when an image is given |
| UserServiceImpl.UserService.DeleteUser | src/main/java/com/example/user/service/impl/UserServiceImpl.java:144-146 | removes exactly the record under the id and nothing else |
| UserServiceImpl.UserService.ResetPassword | src/main/java/com/example/user/service/impl/UserServiceImpl.java:149-159 | an unknown email fails with EmailNotFound and no write; otherwise only the owner's password and raw password change, to the encoded and plain password generated from the draws (10 letters or digits) |
| UserServiceImpl.UserService.UpdateProfileImage | src/main/java/com/example/user/service/impl/UserServiceImpl.java:162-167 | a non-blank username fails only with UserNotFound, and exactly when nobody holds it, with no write. Otherwise the owner's record is returned, with the stored image URL when an image is given. A blank username gives null without an image and a null dereference with one, with no write |
| UserServiceImpl.UserService.SaveProfileImage | src/main/java/com/example/user/service/impl/UserServiceImpl.java:243-256 | no image changes nothing; an image sets only the record's image URL, from its username, and saves it |

## Left out

- Token issuance, the concrete Role constants and their authorities, and the password encoder are not part of this model. The Role enumeration and the encoder are parameters of the service.
- The attempt tracker's counting, threshold, expiry and size bound are not part of this model. The tracker is the set of usernames whose verdict is currently "exceeded", with eviction, which is all the service calls.
- File-system work in saveProfileImage (creating the folder, deleting and copying the file) and the IOException it can raise are left out. The IOException would leave the earlier save in place, because a checked exception does not roll back the transaction. The image's bytes are not stored, and only its presence matters.
- URL construction from the servlet context is left out. The temporary and stored image URLs are abstract functions of the username.
- Randomness is left out: the random draws behind the generated user id and password are arguments, 10 per string. Their distribution is not modelled.
- Logging and the commented-out password email are left out, since neither changes state.
- Transactions are modelled only by their effect on this core: every failure, including one raised after the setters ran on the managed entity in updateUser, writes nothing, because a runtime exception rolls the transaction back.
- Concurrency and the race between validation and save are left out: the model is sequential.
- getUsers is left out: it only returns every stored record. The finders findUserByUsername and findUserByEmail are modelled.
- Repository.FindUserByUsername, Repository.FindUserByEmail: require that no two stored users share a username or an email; the service's invariant guarantees it. A store holding duplicates, where the repository would raise an incorrect-result-size error, is not modelled.
- Text.UpperChar, Text.ToUpper: upper-case only the ASCII letters; every other character, é or ı included, is left unchanged. Locale-dependent and non-ASCII case mappings of String.toUpperCase are not modelled. So Roles.GetRoleEnumName can disagree with the code under a Turkish default locale. There "role_admin" upper-cases to "ROLE_ADMİN" with a dotted capital I, and valueOf fails where the model resolves. A dotless "ı" upper-cases to "I", so valueOf can resolve where the model fails.
- Null string fields and null arguments are not modelled, except the null candidates that updateProfileImage passes to the validator. A lookup with a null candidate finds nobody.
- A login lookup returns the saved record itself rather than a UserPrincipal wrapping it.
- Repository.Store.DeleteById: deleting an absent id is modelled as the error the repository raises for a missing entity. The store is unchanged either way.
