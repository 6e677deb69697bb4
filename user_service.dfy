/**
 * UserServiceImpl: registration, administrative add, update, deletion,
 * password reset, profile-image association and the login lookup, over the
 * user store and the login-attempt tracker.
 */
module UserServiceImpl {
  import opened Wrappers
  import opened Domain
  import opened Repository
  import opened Roles
  import opened Validation
  import opened LoginAttempts
  import Text

  class UserService {
    const store: Store
    const tracker: LoginAttemptService
    const roleTable: RoleTable
    /** BCryptPasswordEncoder.encode */
    const encode: string -> string
    /** getTemporaryProfileImageUrl: the default image URL for a username */
    const temporaryImageUrl: string -> string
    /** getProfileImageUrl: the stored image URL for a username */
    const imageUrl: string -> string

    /**
     * The store is well formed, holds no two records with the same username
     * or email, and every record's authorities are those of its enumerated role.
     */
    ghost predicate Valid()
      reads this, store
    {
      && store.Valid()
      && Unique(store.users)
      && RoleUserName in roleTable
      && AuthoritiesMatchRoles(roleTable, store.users)
    }

    constructor (store: Store, tracker: LoginAttemptService, roleTable: RoleTable,
                 encode: string -> string, temporaryImageUrl: string -> string,
                 imageUrl: string -> string)
      requires store.Valid() && Unique(store.users)
      requires RoleUserName in roleTable && AuthoritiesMatchRoles(roleTable, store.users)
      ensures Valid()
      ensures this.store == store && this.tracker == tracker && this.roleTable == roleTable
      ensures this.encode == encode && this.temporaryImageUrl == temporaryImageUrl
      ensures this.imageUrl == imageUrl
    {
      this.store := store;
      this.tracker := tracker;
      this.roleTable := roleTable;
      this.encode := encode;
      this.temporaryImageUrl := temporaryImageUrl;
      this.imageUrl := imageUrl;
    }

    /**
     * loadUserByUsername: an unknown username fails and writes nothing.
     * Otherwise the lock transition is applied, the previous last-login date
     * moves to the display date, the last-login date becomes `now`, and the
     * record is saved.
     */
    method LoadUserByUsername(username: string, now: Date) returns (r: Result<User, Error>)
      requires Valid()
      modifies store, tracker
      ensures Valid()
      ensures r.Err? <==> !UsernameHeld(old(store.users), Some(username), None)
      ensures r.Err? ==> r.error == UsernameNotFound
      ensures r.Err? ==> store.users == old(store.users) && tracker.exceeded == old(tracker.exceeded)
      ensures r.Ok? ==>
        && r.value.id.Some? && r.value.id.value in old(store.users)
        && var before := old(store.users)[r.value.id.value];
           && before.username == username
           && r.value == before.(isNotLocked := NextNotLocked(before.isNotLocked, username in old(tracker.exceeded)),
                                 lastLoginDateDisplay := before.lastLoginDate,
                                 lastLoginDate := Some(now))
           && store.users == old(store.users)[r.value.id.value := r.value]
           && tracker.exceeded == if before.isNotLocked then old(tracker.exceeded)
                                  else old(tracker.exceeded) - {username}
    {
      var found := FindUserByUsername(store.users, Some(username));
      if found.None? {
        r := Err(UsernameNotFound);
        return;
      }
      ghost var k :| k in store.users && store.users[k] == found.value;
      var user := ValidateLoginAttempt(found.value);
      user := user.(lastLoginDateDisplay := user.lastLoginDate, lastLoginDate := Some(now));
      RewriteKeepsUnique(store.users, k, user);
      var saved := store.Save(user);
      r := Ok(saved);
    }

    /**
     * validateLoginAttempt: an unlocked user is locked exactly when the tracker
     * says the attempts were exceeded; a locked user is evicted from the
     * tracker and stays locked.
     */
    method ValidateLoginAttempt(user: User) returns (checked: User)
      modifies tracker
      ensures checked == user.(isNotLocked := NextNotLocked(user.isNotLocked,
                                                            user.username in old(tracker.exceeded)))
      ensures !user.isNotLocked ==> !checked.isNotLocked
      ensures tracker.exceeded == if user.isNotLocked then old(tracker.exceeded)
                                  else old(tracker.exceeded) - {user.username}
    {
      if user.isNotLocked {
        var exceededMax := tracker.HasExceededMaxAttempts(user.username);
        if exceededMax {
          checked := user.(isNotLocked := false);
        } else {
          checked := user.(isNotLocked := true);
        }
      } else {
        tracker.EvictUserFromCache(user.username);
        checked := user;
      }
    }

    /**
     * register: validation on the create path; on success exactly one new
     * record is saved, active, unlocked, with role ROLE_USER and its
     * authorities, the generated user id, and the encoded generated password.
     */
    method Register(firstName: string, lastName: string, username: string, email: string,
                    idDraws: seq<nat>, passwordDraws: seq<nat>, now: Date)
      returns (r: Result<User, Error>)
      requires Valid()
      requires |idDraws| == GeneratedLength && |passwordDraws| == GeneratedLength
      modifies store
      ensures Valid()
      ensures r == Err(UsernameExist) <==> UsernameHeld(old(store.users), Some(username), None)
      ensures r == Err(EmailExist) <==>
        !UsernameHeld(old(store.users), Some(username), None) && EmailHeld(old(store.users), Some(email), None)
      ensures r.Err? ==> (r.error == UsernameExist || r.error == EmailExist) && store.users == old(store.users)
      ensures r.Ok? ==>
        && r.value.id.Some? && r.value.id.value !in old(store.users)
        && store.users == old(store.users)[r.value.id.value := r.value]
        && |r.value.userId| == GeneratedLength && IsNumeric(r.value.userId)
        && |r.value.rawPassword| == GeneratedLength && IsAlphanumeric(r.value.rawPassword)
        && var userId, rawPassword := GenerateUserId(idDraws), GeneratePassword(passwordDraws);
           r.value == User(r.value.id, userId, firstName, lastName, username, encode(rawPassword), email,
                           temporaryImageUrl(username), None, None, Some(now), RoleUserName,
                           roleTable[RoleUserName], true, true, rawPassword)
    {
      var checked := ValidateUsernameAndEmail(store.users, "", Some(username), Some(email));
      if checked.Err? {
        r := Err(checked.error);
        return;
      }
      var userId := GenerateUserId(idDraws);
      var rawPassword := GeneratePassword(passwordDraws);
      var user := User(None, userId, firstName, lastName, username, encode(rawPassword), email,
                       temporaryImageUrl(username), None, None, Some(now), RoleUserName,
                       roleTable[RoleUserName], true, true, rawPassword);
      var saved := store.Save(user);
      InsertKeepsUnique(old(store.users), "", saved.id.value, saved);
      r := Ok(saved);
    }

    /**
     * addNewUser: as register, but with the given role (resolved by name),
     * lock and active flags, and the profile image stored when one is given.
     * A validation failure, then an unknown role, fails before any write.
     */
    method AddNewUser(firstName: string, lastName: string, username: string, email: string,
                      role: string, isNonLocked: bool, isActive: bool, profileImage: Option<Image>,
                      idDraws: seq<nat>, passwordDraws: seq<nat>, now: Date)
      returns (r: Result<User, Error>)
      requires Valid()
      requires |idDraws| == GeneratedLength && |passwordDraws| == GeneratedLength
      modifies store
      ensures Valid()
      ensures
        var checked := ValidateUsernameAndEmail(old(store.users), "", Some(username), Some(email));
        var resolved := GetRoleEnumName(roleTable, role);
        && (checked.Err? ==> r == Err(checked.error))
        && (checked.Ok? && resolved.Err? ==> r == Err(UnknownRole))
        && (r.Ok? <==> checked.Ok? && resolved.Ok?)
        && (r.Err? ==> store.users == old(store.users))
        && (r.Ok? ==>
              && r.value.id.Some? && r.value.id.value !in old(store.users)
              && store.users == old(store.users)[r.value.id.value := r.value]
              && |r.value.userId| == GeneratedLength && IsNumeric(r.value.userId)
              && |r.value.rawPassword| == GeneratedLength && IsAlphanumeric(r.value.rawPassword)
              && var userId, rawPassword := GenerateUserId(idDraws), GeneratePassword(passwordDraws);
                 r.value == User(r.value.id, userId, firstName, lastName, username, encode(rawPassword), email,
                                 if profileImage.Some? then imageUrl(username) else temporaryImageUrl(username),
                                 None, None, Some(now), resolved.value.name,
                                 resolved.value.authorities, isActive, isNonLocked, rawPassword))
    {
      var checked := ValidateUsernameAndEmail(store.users, "", Some(username), Some(email));
      if checked.Err? {
        r := Err(checked.error);
        return;
      }
      var resolved := GetRoleEnumName(roleTable, role);
      if resolved.Err? {
        r := Err(resolved.error);
        return;
      }
      var userId := GenerateUserId(idDraws);
      var rawPassword := GeneratePassword(passwordDraws);
      var user := User(None, userId, firstName, lastName, username, encode(rawPassword), email,
                       temporaryImageUrl(username), None, None, Some(now), resolved.value.name,
                       resolved.value.authorities, isActive, isNonLocked, rawPassword);
      var saved := store.Save(user);
      InsertKeepsUnique(old(store.users), "", saved.id.value, saved);
      var withImage := SaveProfileImage(saved, profileImage);
      r := Ok(withImage);
    }

    /**
     * updateUser: validation on the update path (a blank current username
     * takes the create path and then dereferences its null result); then the
     * names, username, email, flags and role are replaced and saved, and
     * the profile image stored when one is given. Every failure writes nothing.
     */
    method UpdateUser(currentUsername: string, newFirstName: string, newLastName: string,
                      newUsername: string, newEmail: string, role: string, isNonLocked: bool,
                      isActive: bool, profileImage: Option<Image>)
      returns (r: Result<User, Error>)
      requires Valid()
      modifies store
      ensures Valid()
      ensures
        var checked := ValidateUsernameAndEmail(old(store.users), currentUsername, Some(newUsername), Some(newEmail));
        var resolved := GetRoleEnumName(roleTable, role);
        && (checked.Err? ==> r == Err(checked.error))
        && (checked == Ok(None) ==> r == Err(NullUser))
        && (checked.Ok? && checked.value.Some? && resolved.Err? ==> r == Err(UnknownRole))
        && (r.Ok? <==> checked.Ok? && checked.value.Some? && resolved.Ok?)
        && (r.Err? ==> store.users == old(store.users))
        && (r.Ok? ==>
              var current := checked.value.value;
              && current.id.Some? && current.id.value in old(store.users)
              && old(store.users)[current.id.value] == current
              && current.username == currentUsername
              && r.value == current.(firstName := newFirstName, lastName := newLastName,
                                     username := newUsername, email := newEmail,
                                     isActive := isActive, isNotLocked := isNonLocked,
                                     roles := resolved.value.name,
                                     authorities := resolved.value.authorities,
                                     profileImageUrl := if profileImage.Some? then imageUrl(newUsername)
                                                        else current.profileImageUrl)
              && store.users == old(store.users)[current.id.value := r.value])
    {
      var checked := ValidateUsernameAndEmail(store.users, currentUsername, Some(newUsername), Some(newEmail));
      if checked.Err? {
        r := Err(checked.error);
        return;
      }
      if checked.value.None? {
        r := Err(NullUser);
        return;
      }
      var current := checked.value.value;
      var resolved := GetRoleEnumName(roleTable, role);
      if resolved.Err? {
        r := Err(resolved.error);
        return;
      }
      var user := current.(firstName := newFirstName, lastName := newLastName,
                           username := newUsername, email := newEmail,
                           isActive := isActive, isNotLocked := isNonLocked,
                           roles := resolved.value.name,
                           authorities := resolved.value.authorities);
      ReplaceKeepsUnique(store.users, currentUsername, current, user);
      var saved := store.Save(user);
      var withImage := SaveProfileImage(saved, profileImage);
      r := Ok(withImage);
    }

    /** deleteUser: removes the record under `id`, and nothing else. */
    method DeleteUser(id: int) returns (r: Result<(), Error>)
      requires Valid()
      modifies store
      ensures Valid()
      ensures store.users == old(store.users) - {id}
      ensures r.Ok? <==> id in old(store.users)
      ensures r.Err? ==> r.error == NoSuchEntity
    {
      RemoveKeepsUnique(store.users, id);
      r := store.DeleteById(id);
    }

    /**
     * resetPassword: an unknown email fails and writes nothing; otherwise
     * only the password (encoded) and the raw password of that user change.
     */
    method ResetPassword(email: string, passwordDraws: seq<nat>) returns (r: Result<(), Error>)
      requires Valid()
      requires |passwordDraws| == GeneratedLength
      modifies store
      ensures Valid()
      ensures r.Err? <==> !EmailHeld(old(store.users), Some(email), None)
      ensures r.Err? ==> r.error == EmailNotFound && store.users == old(store.users)
      ensures r.Ok? ==>
        var rawPassword := GeneratePassword(passwordDraws);
        && |rawPassword| == GeneratedLength && IsAlphanumeric(rawPassword)
        && exists k :: k in old(store.users) && old(store.users)[k].email == email
             && store.users == old(store.users)[k := old(store.users)[k].(password := encode(rawPassword),
                                                                         rawPassword := rawPassword)]
    {
      var found := FindUserByEmail(store.users, Some(email));
      if found.None? {
        r := Err(EmailNotFound);
        return;
      }
      ghost var k :| k in store.users && store.users[k] == found.value;
      var rawPassword := GeneratePassword(passwordDraws);
      var user := found.value.(password := encode(rawPassword), rawPassword := rawPassword);
      RewriteKeepsUnique(store.users, k, user);
      var saved := store.Save(user);
      r := Ok(());
    }

    /**
     * updateProfileImage: update-path validation with null candidates, then
     * the image is stored. A blank username takes the create path, whose null
     * result is returned as is without an image and dereferenced with one.
     */
    method UpdateProfileImage(username: string, newProfileImage: Option<Image>)
      returns (r: Result<Option<User>, Error>)
      requires Valid()
      modifies store
      ensures Valid()
      ensures r.Err? ==> store.users == old(store.users)
      ensures Text.IsBlank(username) ==> r == if newProfileImage.Some? then Err(NullUser) else Ok(None)
      ensures !Text.IsBlank(username) ==>
        (r == Err(UserNotFound) <==> !UsernameHeld(old(store.users), Some(username), None))
      ensures !Text.IsBlank(username) ==> (r.Err? ==> r == Err(UserNotFound))
      ensures !Text.IsBlank(username) && r.Ok? ==>
        && r.value.Some? && r.value.value.id.Some? && r.value.value.id.value in old(store.users)
        && var before := old(store.users)[r.value.value.id.value];
           && before.username == username
           && r.value.value == (if newProfileImage.Some? then before.(profileImageUrl := imageUrl(username))
                                else before)
           && store.users == old(store.users)[r.value.value.id.value := r.value.value]
    {
      var checked := ValidateUsernameAndEmail(store.users, username, None, None);
      NullCandidatesNeverConflict(store.users, username);
      if checked.Err? {
        r := Err(checked.error);
        return;
      }
      if checked.value.None? {
        if newProfileImage.Some? {
          r := Err(NullUser);
        } else {
          r := Ok(None);
        }
        return;
      }
      var user := SaveProfileImage(checked.value.value, newProfileImage);
      r := Ok(Some(user));
    }

    /**
     * saveProfileImage without the file system: no image changes nothing;
     * an image sets the record's image URL from its username and saves it.
     */
    method SaveProfileImage(user: User, profileImage: Option<Image>) returns (updated: User)
      requires Valid()
      requires user.id.Some? && user.id.value in store.users && store.users[user.id.value] == user
      modifies store
      ensures Valid()
      ensures profileImage.None? ==> updated == user && store.users == old(store.users)
      ensures profileImage.Some? ==>
        && updated == user.(profileImageUrl := imageUrl(user.username))
        && store.users == old(store.users)[user.id.value := updated]
    {
      updated := user;
      if profileImage.Some? {
        updated := user.(profileImageUrl := imageUrl(user.username));
        RewriteKeepsUnique(store.users, user.id.value, updated);
        updated := store.Save(updated);
      }
    }
  }
}
