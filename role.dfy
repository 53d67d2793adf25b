/** The Role entity: a persistent id and a role type, both assignable and both null
    until assigned. */
module Roles {
  import opened Wrappers
  import opened RoleTypes

  class Role {
    var id: Option<int>
    var roleType: Option<RoleType>

    /** Role(): leaves id and type unset. */
    constructor Empty()
      ensures id == None && roleType == None
    {
      id := None;
      roleType := None;
    }

    /** Role(type): sets the type; the id stays unset until the role is persisted. */
    constructor (t: RoleType)
      ensures id == None && roleType == Some(t)
    {
      id := None;
      roleType := Some(t);
    }

    method SetId(newId: Option<int>)
      modifies this
      ensures id == newId && roleType == old(roleType)
    {
      id := newId;
    }

    method SetType(t: Option<RoleType>)
      modifies this
      ensures roleType == t && id == old(id)
    {
      roleType := t;
    }
  }

  /** The role types of a collection of typed roles. */
  function TypesOf(roles: set<Role>): set<RoleType>
    reads roles
    requires forall r :: r in roles ==> r.roleType.Some?
  {
    set r | r in roles :: r.roleType.value
  }

  /** A type is among the types of typed roles exactly when some role has it. */
  lemma TypesOfMeaning(roles: set<Role>, t: RoleType)
    requires forall r :: r in roles ==> r.roleType.Some?
    ensures t in TypesOf(roles) <==> exists r :: r in roles && r.roleType == Some(t)
  {
  }
}
