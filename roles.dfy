/** Role resolution: getRoleEnumName and the Role enumeration it consults. */
module Roles {
  import opened Wrappers
  import opened Domain
  import Text

  /** A constant of the Role enumeration: its name() and the authorities it
      carries, which getAuthorities() returns. */
  datatype Role = Role(name: string, authorities: seq<string>)

  /**
   * The Role enumeration: each constant's name and its authorities. The
   * enumeration's source is not part of this model, so the table is a
   * parameter of the service.
   */
  type RoleTable = map<string, seq<string>>

  /** The role is one of the enumeration's constants. */
  predicate IsConstant(table: RoleTable, role: Role) {
    role.name in table && role.authorities == table[role.name]
  }

  /** The name of the default role given by self-service registration. */
  const RoleUserName: string := "ROLE_USER"

  /**
   * Role.valueOf(role.toUpperCase()): the constant whose name is the
   * upper-cased argument, or the IllegalArgumentException valueOf raises.
   */
  function GetRoleEnumName(table: RoleTable, role: string): (r: Result<Role, Error>)
    ensures r.Ok? <==> Text.ToUpper(role) in table
    ensures r.Ok? ==> IsConstant(table, r.value) && Text.IsUpperCase(r.value.name)
                      && |r.value.name| == |role|
    ensures r.Ok? ==> forall i :: 0 <= i < |role| ==> r.value.name[i] == Text.UpperChar(role[i])
    ensures r.Err? ==> r.error == UnknownRole
  {
    var name := Text.ToUpper(role);
    if name in table then Ok(Role(name, table[name])) else Err(UnknownRole)
  }

  /** Resolution ignores case: a name and its upper-casing resolve alike. */
  lemma ResolutionIgnoresCase(table: RoleTable, role: string)
    ensures GetRoleEnumName(table, Text.ToUpper(role)) == GetRoleEnumName(table, role)
  {
    Text.ToUpperIdempotent(role);
  }

  /** The name() of an upper-case constant resolves back to that constant. */
  lemma NameRoundTrip(table: RoleTable, role: Role)
    requires IsConstant(table, role) && Text.IsUpperCase(role.name)
    ensures GetRoleEnumName(table, role.name) == Ok(role)
  {
    Text.UpperCaseIsFixed(role.name);
  }

  /** Every stored record's role is an enumerated constant and its authorities are exactly that role's. */
  ghost predicate AuthoritiesMatchRoles(table: RoleTable, users: map<int, User>) {
    forall k :: k in users ==>
      users[k].roles in table && users[k].authorities == table[users[k].roles]
  }
}
