/** The User entity: id, username, email, password and a reference to a mutable set of
    roles. The set is held by reference, so a caller that keeps the set it passed to
    SetRoles sees, and makes, later changes through either handle. */
module Users {
  import opened Wrappers
  import opened Text
  import opened Roles

  /** A java.util.HashSet<Role> object; Role does not override equals, so membership is
      by object identity. */
  class RoleSet {
    var elems: set<Role>

    constructor ()
      ensures elems == {}
    {
      elems := {};
    }

    /** A set already holding the given roles (the collection the store hands out for a
        loaded user). */
    constructor Of(roles: set<Role>)
      ensures elems == roles
    {
      elems := roles;
    }

    /** Set.add: true exactly when the role was not yet a member. */
    method Add(r: Role) returns (added: bool)
      modifies this
      ensures elems == old(elems) + {r}
      ensures added <==> r !in old(elems)
    {
      added := r !in elems;
      elems := elems + {r};
    }
  }

  class User {
    var id: Option<int>
    var username: Option<string>
    var email: Option<string>
    var password: Option<string>
    var roles: RoleSet

    /** User(): every field null except roles, which starts as a new empty set. */
    constructor Empty()
      ensures id == None && username == None && email == None && password == None
      ensures fresh(roles) && roles.elems == {}
    {
      id, username, email, password := None, None, None, None;
      roles := new RoleSet();
    }

    /** User(username, email, password): stores the three values; no id and no roles yet. */
    constructor (name: string, mail: string, pass: string)
      ensures username == Some(name) && email == Some(mail) && password == Some(pass)
      ensures id == None
      ensures fresh(roles) && roles.elems == {}
    {
      id := None;
      username, email, password := Some(name), Some(mail), Some(pass);
      roles := new RoleSet();
    }

    method SetId(newId: Option<int>)
      modifies this
      ensures id == newId
      ensures username == old(username) && email == old(email) && password == old(password) && roles == old(roles)
    {
      id := newId;
    }

    method SetUsername(name: Option<string>)
      modifies this
      ensures username == name
      ensures id == old(id) && email == old(email) && password == old(password) && roles == old(roles)
    {
      username := name;
    }

    method SetEmail(mail: Option<string>)
      modifies this
      ensures email == mail
      ensures id == old(id) && username == old(username) && password == old(password) && roles == old(roles)
    {
      email := mail;
    }

    method SetPassword(pass: Option<string>)
      modifies this
      ensures password == pass
      ensures id == old(id) && username == old(username) && email == old(email) && roles == old(roles)
    {
      password := pass;
    }

    /** setRoles keeps the caller's set object itself, not a copy. */
    method SetRoles(rs: RoleSet)
      modifies this
      ensures roles == rs
      ensures id == old(id) && username == old(username) && email == old(email) && password == old(password)
    {
      roles := rs;
    }

    /** The declared field constraints: username, email and password not blank, of at
        most 20, 50 and 120 characters, and the email well-formed by `isEmail`, which
        stands for the validator's @Email check. */
    predicate DeclaredValid(isEmail: string -> bool)
      reads this
    {
      && NotBlank(username) && |username.value| <= 20
      && NotBlank(email) && |email.value| <= 50 && isEmail(email.value)
      && NotBlank(password) && |password.value| <= 120
    }
  }

  /** A user meeting the declared constraints has all three fields, each of one up to its
      maximum number of characters and a well-formed email; a username made only of
      spaces and control characters never meets them. */
  lemma DeclaredValidBounds(u: User, isEmail: string -> bool)
    ensures u.DeclaredValid(isEmail) ==>
              && u.username.Some? && 1 <= |u.username.value| <= 20
              && u.email.Some? && 1 <= |u.email.value| <= 50 && isEmail(u.email.value)
              && u.password.Some? && 1 <= |u.password.value| <= 120
    ensures u.username.Some? && (forall i :: 0 <= i < |u.username.value| ==> u.username.value[i] <= ' ') ==>
              !u.DeclaredValid(isEmail)
  {
  }

  /** A role added to a set after that set was handed to SetRoles is visible through the
      user: the user and the caller share one set object. */
  method AddAfterSetRolesIsShared(u: User, rs: RoleSet, r: Role)
    modifies u, rs
    ensures u.roles == rs && r in u.roles.elems
    ensures u.roles.elems == old(rs.elems) + {r}
  {
    u.SetRoles(rs);
    var _ := rs.Add(r);
  }
}
