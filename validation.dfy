/**
 * validateUsernameAndEmail: the uniqueness check run before every create
 * and update, and the uniqueness invariant it lets those operations keep.
 */
module Validation {
  import opened Wrappers
  import opened Domain
  import opened Repository
  import Text

  /**
   * With a blank current username (create path): UsernameExist if anyone has
   * the new username, else EmailExist if anyone has the new email, else no
   * user. Otherwise (update path): UserNotFound if nobody has the current
   * username; else UsernameExist or EmailExist only when a record other than
   * the current user's holds the new username or email, username first; else
   * the current user's record, unchanged.
   */
  function ValidateUsernameAndEmail(users: map<int, User>, currentUsername: string,
                                    newUsername: Option<string>, newEmail: Option<string>)
    : (r: Result<Option<User>, Error>)
    requires KeysMatch(users) && Unique(users)
    ensures Text.IsBlank(currentUsername) ==>
      && (r == Err(UsernameExist) <==> UsernameHeld(users, newUsername, None))
      && (r == Err(EmailExist) <==>
            !UsernameHeld(users, newUsername, None) && EmailHeld(users, newEmail, None))
      && (r == Ok(None) <==>
            !UsernameHeld(users, newUsername, None) && !EmailHeld(users, newEmail, None))
    ensures !Text.IsBlank(currentUsername) ==>
      (r == Err(UserNotFound) <==> !UsernameHeld(users, Some(currentUsername), None))
    ensures !Text.IsBlank(currentUsername) ==>
      forall k :: k in users && users[k].username == currentUsername ==>
        && (r == Err(UsernameExist) <==> UsernameHeld(users, newUsername, Some(k)))
        && (r == Err(EmailExist) <==>
              !UsernameHeld(users, newUsername, Some(k)) && EmailHeld(users, newEmail, Some(k)))
        && (r == Ok(Some(users[k])) <==>
              !UsernameHeld(users, newUsername, Some(k)) && !EmailHeld(users, newEmail, Some(k)))
  {
    if !Text.IsBlank(currentUsername) then
      match FindUserByUsername(users, Some(currentUsername))
      case None => Err(UserNotFound)
      case Some(currentUser) =>
        var userByNewUsername := FindUserByUsername(users, newUsername);
        if userByNewUsername.Some? && userByNewUsername.value.id != currentUser.id then
          Err(UsernameExist)
        else
          var userByNewEmail := FindUserByEmail(users, newEmail);
          if userByNewEmail.Some? && userByNewEmail.value.id != currentUser.id then
            Err(EmailExist)
          else
            Ok(Some(currentUser))
    else
      if FindUserByUsername(users, newUsername).Some? then Err(UsernameExist)
      else if FindUserByEmail(users, newEmail).Some? then Err(EmailExist)
      else Ok(None)
  }

  /** Updating a user with its own unchanged username and email never conflicts with itself. */
  lemma SelfUpdateNeverConflicts(users: map<int, User>, k: int)
    requires KeysMatch(users) && Unique(users)
    requires k in users && !Text.IsBlank(users[k].username)
    ensures ValidateUsernameAndEmail(users, users[k].username,
              Some(users[k].username), Some(users[k].email)) == Ok(Some(users[k]))
  {
  }

  /**
   * A user whose username is blank is validated on the create path, so
   * resubmitting its own username conflicts with itself.
   */
  lemma BlankUsernameConflictsWithItself(users: map<int, User>, k: int)
    requires KeysMatch(users) && Unique(users)
    requires k in users && Text.IsBlank(users[k].username)
    ensures ValidateUsernameAndEmail(users, users[k].username,
              Some(users[k].username), Some(users[k].email)) == Err(UsernameExist)
  {
  }

  /** With null candidates (updateProfileImage) the only possible failure is UserNotFound. */
  lemma NullCandidatesNeverConflict(users: map<int, User>, currentUsername: string)
    requires KeysMatch(users) && Unique(users)
    ensures var r := ValidateUsernameAndEmail(users, currentUsername, None, None);
      && (r.Err? ==> r.error == UserNotFound && !Text.IsBlank(currentUsername))
      && (r.Ok? && r.value.Some? ==>
            exists k :: k in users && users[k] == r.value.value && users[k].username == currentUsername)
      && (r.Ok? && r.value.None? <==> Text.IsBlank(currentUsername))
  {
  }

  /** Inserting a record whose username and email passed validation keeps the store free of duplicates. */
  lemma InsertKeepsUnique(users: map<int, User>, currentUsername: string, k: int, u: User)
    requires KeysMatch(users) && Unique(users)
    requires ValidateUsernameAndEmail(users, currentUsername, Some(u.username), Some(u.email)) == Ok(None)
    requires k !in users && u.id == Some(k)
    ensures KeysMatch(users[k := u]) && Unique(users[k := u])
  {
    assert !UsernameHeld(users, Some(u.username), None);
    assert !EmailHeld(users, Some(u.email), None);
  }

  /**
   * Replacing the validated current user's record by one carrying the new
   * username and email keeps the store free of duplicates.
   */
  lemma ReplaceKeepsUnique(users: map<int, User>, currentUsername: string, current: User, u: User)
    requires KeysMatch(users) && Unique(users)
    requires ValidateUsernameAndEmail(users, currentUsername, Some(u.username), Some(u.email)) == Ok(Some(current))
    requires u.id == current.id
    ensures current.id.Some? && current.id.value in users && users[current.id.value] == current
    ensures KeysMatch(users[current.id.value := u]) && Unique(users[current.id.value := u])
  {
    var k :| k in users && users[k] == current && users[k].username == currentUsername;
    assert !UsernameHeld(users, Some(u.username), Some(k));
    assert !EmailHeld(users, Some(u.email), Some(k));
  }

  /** Rewriting a record without touching its id, username or email keeps the store free of duplicates. */
  lemma RewriteKeepsUnique(users: map<int, User>, k: int, u: User)
    requires KeysMatch(users) && Unique(users)
    requires k in users && u.id == Some(k)
    requires u.username == users[k].username && u.email == users[k].email
    ensures KeysMatch(users[k := u]) && Unique(users[k := u])
  {
  }

  /** Deleting a record keeps the store free of duplicates. */
  lemma RemoveKeepsUnique(users: map<int, User>, k: int)
    requires KeysMatch(users) && Unique(users)
    ensures KeysMatch(users - {k}) && Unique(users - {k})
  {
  }
}
