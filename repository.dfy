/**
 * The user repository: users keyed by their numeric id, the finders the
 * service uses, and save / deleteById.
 */
module Repository {
  import opened Wrappers
  import opened Domain

  /** Every stored record sits under its own id. */
  ghost predicate KeysMatch(users: map<int, User>) {
    forall k :: k in users ==> users[k].id == Some(k)
  }

  /** No two stored records share a username or an email. */
  ghost predicate Unique(users: map<int, User>) {
    forall a, b :: a in users && b in users && a != b ==>
      users[a].username != users[b].username && users[a].email != users[b].email
  }

  /** Some stored record other than the one under `except` has this username. */
  ghost predicate UsernameHeld(users: map<int, User>, name: Option<string>, except: Option<int>) {
    exists k :: k in users && Some(k) != except && Some(users[k].username) == name
  }

  /** Some stored record other than the one under `except` has this email. */
  ghost predicate EmailHeld(users: map<int, User>, email: Option<string>, except: Option<int>) {
    exists k :: k in users && Some(k) != except && Some(users[k].email) == email
  }

  /**
   * findUserByUsername: the record with this username, or null. A null
   * argument finds nothing, since no stored username is null.
   */
  function FindUserByUsername(users: map<int, User>, name: Option<string>): (r: Option<User>)
    requires Unique(users)
    ensures r.Some? <==> UsernameHeld(users, name, None)
    ensures r.Some? ==> exists k :: k in users && users[k] == r.value && name == Some(r.value.username)
  {
    if exists k :: k in users && Some(users[k].username) == name then
      var k :| k in users && Some(users[k].username) == name; Some(users[k])
    else
      None
  }

  /** findUserByEmail: the record with this email, or null. */
  function FindUserByEmail(users: map<int, User>, email: Option<string>): (r: Option<User>)
    requires Unique(users)
    ensures r.Some? <==> EmailHeld(users, email, None)
    ensures r.Some? ==> exists k :: k in users && users[k] == r.value && email == Some(r.value.email)
  {
    if exists k :: k in users && Some(users[k].email) == email then
      var k :| k in users && Some(users[k].email) == email; Some(users[k])
    else
      None
  }

  /** The store behind UserRepository, with a generated-id counter. */
  class Store {
    var users: map<int, User>
    var nextId: int

    ghost predicate Valid()
      reads this
    {
      KeysMatch(users) && forall k :: k in users ==> k < nextId
    }

    constructor ()
      ensures Valid() && users == map[]
    {
      users := map[];
      nextId := 1;
    }

    /**
     * save: a record whose id is stored replaces that record; any other
     * record (a new one, or a detached one whose id is gone) is inserted
     * under a freshly generated id. Returns the saved record.
     */
    method Save(u: User) returns (saved: User)
      requires Valid()
      modifies this
      ensures Valid()
      ensures saved.id.Some? && saved == u.(id := saved.id)
      ensures users == old(users)[saved.id.value := saved]
      ensures u.id.Some? && u.id.value in old(users) ==> saved.id == u.id
      ensures !(u.id.Some? && u.id.value in old(users)) ==> saved.id.value !in old(users)
    {
      if u.id.Some? && u.id.value in users {
        saved := u;
      } else {
        saved := u.(id := Some(nextId));
        nextId := nextId + 1;
      }
      users := users[saved.id.value := saved];
    }

    /** deleteById: removes the record under `id`; an absent id is an error and changes nothing. */
    method DeleteById(id: int) returns (r: Result<(), Error>)
      requires Valid()
      modifies this
      ensures Valid()
      ensures r.Ok? <==> id in old(users)
      ensures r.Err? ==> r.error == NoSuchEntity
      ensures users == old(users) - {id}
    {
      if id in users {
        users := users - {id};
        r := Ok(());
      } else {
        r := Err(NoSuchEntity);
      }
    }
  }
}
