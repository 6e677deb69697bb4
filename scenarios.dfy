/**
 * Client scenarios: what a caller can conclude from the service's contracts
 * alone, on a fresh, empty store.
 */
module Scenarios {
  import opened Wrappers
  import opened Domain
  import opened Repository
  import opened Roles
  import opened LoginAttempts
  import opened UserServiceImpl

  /** A fixed stand-in for ten random draws. */
  const Draws: seq<nat> := [3, 1, 4, 1, 5, 9, 2, 6, 5, 3]

  method NewService(exceeded: set<string>) returns (service: UserService)
    ensures service.Valid() && fresh(service.store) && fresh(service.tracker)
    ensures service.store.users == map[] && service.tracker.exceeded == exceeded
    ensures service.roleTable == map[RoleUserName := ["user:read"]]
  {
    var store := new Store();
    var tracker := new LoginAttemptService(exceeded);
    var table: RoleTable := map[RoleUserName := ["user:read"]];
    service := new UserService(store, tracker, table, (s: string) => "{bcrypt}" + s,
                               (s: string) => "/image/profile/" + s, (s: string) => "/user/image/" + s);
  }

  /** Registering "alee" succeeds once; a second registration with that username conflicts. */
  method RegisterTwice() {
    var service := NewService({});
    var first := service.Register("Ann", "Lee", "alee", "a@x.com", Draws, Draws, 1000);
    assert !UsernameHeld(map[], Some("alee"), None);
    assert first.Ok?;
    var ann := first.value;
    assert ann.isActive && ann.isNotLocked && ann.roles == RoleUserName;
    assert |ann.userId| == GeneratedLength && IsNumeric(ann.userId);
    var id := ann.id.value;
    assert id in service.store.users && Some(service.store.users[id].username) == Some("alee");
    var second := service.Register("Ann", "Lee", "alee", "b@x.com", Draws, Draws, 2000);
    assert second == Err(UsernameExist);
  }

  /**
   * With the tracker reporting "alee" as exceeded, the next lookup locks the
   * account; the lookups after it evict "alee" but leave the account locked.
   */
  method LockoutSurvivesLookups() {
    var service := NewService({"alee"});
    var registered := service.Register("Ann", "Lee", "alee", "a@x.com", Draws, Draws, 1000);
    assert !UsernameHeld(map[], Some("alee"), None);
    assert registered.Ok?;
    var id := registered.value.id.value;
    assert id in service.store.users && Some(service.store.users[id].username) == Some("alee");
    var login1 := service.LoadUserByUsername("alee", 2000);
    assert login1.Ok? && !login1.value.isNotLocked;
    assert login1.value.lastLoginDate == Some(2000) && login1.value.lastLoginDateDisplay == None;
    id := login1.value.id.value;
    assert id in service.store.users && Some(service.store.users[id].username) == Some("alee");
    var login2 := service.LoadUserByUsername("alee", 3000);
    assert login2.Ok? && !login2.value.isNotLocked;
    assert login2.value.lastLoginDate == Some(3000) && login2.value.lastLoginDateDisplay == Some(2000);
    assert service.tracker.exceeded == {};
  }

  /** Resetting the password of an unknown email fails and writes nothing. */
  method ResetUnknownEmail() {
    var service := NewService({});
    var r := service.ResetPassword("a@x.com", Draws);
    assert r == Err(EmailNotFound) && service.store.users == map[];
  }
}
