/** UserDetailsImpl: the immutable principal built from a User entity. It has no setters,
    so it is a value: the constructor is the datatype constructor and the getters are its
    fields. Authorities are the role-type names of the user's roles. */
module Principals {
  import opened Wrappers
  import opened RoleTypes
  import opened Roles
  import opened Users

  datatype UserDetails = UserDetails(
    id: Option<int>,
    username: Option<string>,
    email: Option<string>,
    password: Option<string>,
    authorities: set<string>)

  /** The authority names granted for a set of role types: one SimpleGrantedAuthority per
      role, named by RoleType.name(). */
  function AuthorityNames(types: set<RoleType>): (names: set<string>)
    ensures forall t :: t in types ==> Name(t) in names
    ensures forall n :: n in names ==> exists t :: t in types && Name(t) == n
  {
    set t | t in types :: Name(t)
  }

  /** An authority name is granted exactly when its role type is among the user's roles. */
  lemma AuthorityNamesExact(types: set<RoleType>, t: RoleType)
    ensures Name(t) in AuthorityNames(types) <==> t in types
  {
    if Name(t) in AuthorityNames(types) {
      var u :| u in types && Name(u) == Name(t);
      NameInjective(u, t);
    }
  }

  /** Distinct role types give distinct authorities: one authority per role type. */
  lemma {:induction false} AuthorityNamesCount(types: set<RoleType>)
    ensures |AuthorityNames(types)| == |types|
    decreases types
  {
    if types != {} {
      var t :| t in types;
      var rest := types - {t};
      AuthorityNamesCount(rest);
      AuthorityNamesExact(rest, t);
      assert AuthorityNames(types) == AuthorityNames(rest) + {Name(t)};
    }
  }

  /** UserDetailsImpl.build: copies id, username, email and password, and maps every role
      to the name of its type. A role without a type would throw, so every role must have
      one. */
  function Build(u: User): (d: UserDetails)
    reads u, u.roles, u.roles.elems
    requires forall r :: r in u.roles.elems ==> r.roleType.Some?
    ensures d.id == u.id && d.username == u.username && d.email == u.email && d.password == u.password
    ensures forall r :: r in u.roles.elems ==> Name(r.roleType.value) in d.authorities
    ensures forall a :: a in d.authorities ==> exists r :: r in u.roles.elems && Name(r.roleType.value) == a
    ensures d.authorities == AuthorityNames(TypesOf(u.roles.elems))
  {
    UserDetails(u.id, u.username, u.email, u.password, AuthorityNames(TypesOf(u.roles.elems)))
  }

  /** The four account-status flags: accounts never expire, lock or lose their credentials,
      and are always enabled. */
  function IsAccountNonExpired(d: UserDetails): (b: bool)
    ensures b
  {
    true
  }

  function IsAccountNonLocked(d: UserDetails): (b: bool)
    ensures b
  {
    true
  }

  function IsCredentialsNonExpired(d: UserDetails): (b: bool)
    ensures b
  {
    true
  }

  function IsEnabled(d: UserDetails): (b: bool)
    ensures b
  {
    true
  }

  /** The argument of equals(Object): null, another UserDetailsImpl, or an object of some
      other class. */
  datatype Object = Null | Details(details: UserDetails) | Other(className: string)

  /** UserDetailsImpl.equals: the same object, or another UserDetailsImpl with the same id. */
  function Equals(self: UserDetails, o: Object): (b: bool)
    ensures o == Details(self) ==> b
    ensures o.Null? || o.Other? ==> !b
    ensures o.Details? ==> (b <==> o.details.id == self.id)
  {
    if o == Details(self) then true
    else if o.Null? || o.Other? then false
    else o.details.id == self.id
  }

  lemma EqualsSymmetric(a: UserDetails, b: UserDetails)
    ensures Equals(a, Details(b)) <==> Equals(b, Details(a))
  {
  }

  lemma EqualsTransitive(a: UserDetails, b: UserDetails, c: UserDetails)
    requires Equals(a, Details(b)) && Equals(b, Details(c))
    ensures Equals(a, Details(c))
  {
  }
}
