/** The persistent store behind UserRepository, RoleRepository and RefreshTokenRepository.
    Rows are values keyed by their generated id; the database enforces the declared unique
    columns (username, email, token, and the user of a refresh token). Finder methods hand
    out freshly loaded entity objects, and save writes an entity's fields back to the row
    with the entity's id. */
module Repositories {
  import opened Wrappers
  import opened RoleTypes
  import opened Roles
  import opened Users
  import opened RefreshTokens

  /** A row of the users table with its user_roles links (a role row is identified by its
      type, which is unique in the roles table). */
  datatype UserRow = UserRow(username: string, email: string, password: string, roles: set<RoleType>)

  /** A row of the refreshtoken table: token and expiry_date are NOT NULL columns. */
  datatype TokenRow = TokenRow(userId: int, token: string, expiryDate: Instant)

  ghost predicate UniqueUsernames(users: map<int, UserRow>) {
    forall a, b :: a in users && b in users && users[a].username == users[b].username ==> a == b
  }

  ghost predicate UniqueEmails(users: map<int, UserRow>) {
    forall a, b :: a in users && b in users && users[a].email == users[b].email ==> a == b
  }

  /** The OneToOne join column: no user owns two refresh tokens. */
  ghost predicate OneTokenPerUser(tokens: map<int, TokenRow>) {
    forall a, b :: a in tokens && b in tokens && tokens[a].userId == tokens[b].userId ==> a == b
  }

  /** The unique token column. */
  ghost predicate UniqueTokenValues(tokens: map<int, TokenRow>) {
    forall a, b :: a in tokens && b in tokens && tokens[a].token == tokens[b].token ==> a == b
  }

  predicate UsernameTaken(users: map<int, UserRow>, name: string) {
    exists id :: id in users && users[id].username == name
  }

  predicate EmailTaken(users: map<int, UserRow>, email: string) {
    exists id :: id in users && users[id].email == email
  }

  /** Writing `row` under `key` would put a second row on one of the unique columns. */
  predicate Conflicts(tokens: map<int, TokenRow>, key: int, row: TokenRow) {
    exists k :: k in tokens && k != key && (tokens[k].token == row.token || tokens[k].userId == row.userId)
  }

  /** The id of the user called `name`. */
  ghost function UserIdOf(users: map<int, UserRow>, name: string): (r: Option<int>)
    ensures r.Some? ==> r.value in users && users[r.value].username == name
    ensures r.None? <==> !UsernameTaken(users, name)
  {
    if UsernameTaken(users, name) then Some(var id :| id in users && users[id].username == name; id) else None
  }

  /** The id of the refresh token owned by user `uid`. */
  ghost function TokenIdOfUser(tokens: map<int, TokenRow>, uid: int): (r: Option<int>)
    ensures r.Some? ==> r.value in tokens && tokens[r.value].userId == uid
    ensures r.None? <==> forall k :: k in tokens ==> tokens[k].userId != uid
  {
    if exists k :: k in tokens && tokens[k].userId == uid then Some(var k :| k in tokens && tokens[k].userId == uid; k) else None
  }

  /** The id of the refresh token whose value is `value`. */
  ghost function TokenIdOfValue(tokens: map<int, TokenRow>, value: string): (r: Option<int>)
    ensures r.Some? ==> r.value in tokens && tokens[r.value].token == value
    ensures r.None? <==> forall k :: k in tokens ==> tokens[k].token != value
  {
    if exists k :: k in tokens && tokens[k].token == value then Some(var k :| k in tokens && tokens[k].token == value; k) else None
  }

  /** The table after deleteByUser: every row of `uid` is gone, every other row is kept. */
  function TokensWithout(tokens: map<int, TokenRow>, uid: int): (r: map<int, TokenRow>)
    ensures forall k :: k in r <==> k in tokens && tokens[k].userId != uid
    ensures forall k :: k in r ==> r[k] == tokens[k]
  {
    map k | k in tokens && tokens[k].userId != uid :: tokens[k]
  }

  /** The ids of the rows owned by user `uid`. */
  function TokenIdsOfUser(tokens: map<int, TokenRow>, uid: int): set<int> {
    set k | k in tokens && tokens[k].userId == uid
  }

  lemma UserIdOfUnique(users: map<int, UserRow>, name: string, id: int)
    requires UniqueUsernames(users) && id in users && users[id].username == name
    ensures UserIdOf(users, name) == Some(id)
  {
  }

  lemma TokenIdOfUserUnique(tokens: map<int, TokenRow>, uid: int, k: int)
    requires OneTokenPerUser(tokens) && k in tokens && tokens[k].userId == uid
    ensures TokenIdOfUser(tokens, uid) == Some(k)
  {
  }

  lemma TokenIdOfValueUnique(tokens: map<int, TokenRow>, value: string, k: int)
    requires UniqueTokenValues(tokens) && k in tokens && tokens[k].token == value
    ensures TokenIdOfValue(tokens, value) == Some(k)
  {
  }

  /** `u` is the entity loaded from row `row` with id `id`. */
  ghost predicate IsLoaded(u: User, id: int, row: UserRow)
    reads u, u.roles, u.roles.elems
  {
    && u.id == Some(id)
    && u.username == Some(row.username)
    && u.email == Some(row.email)
    && u.password == Some(row.password)
    && (forall r :: r in u.roles.elems ==> r.roleType.Some?)
    && TypesOf(u.roles.elems) == row.roles
  }

  /** A user entity populated from a row, holding the given role objects. */
  method NewUser(id: int, row: UserRow, roles: set<Role>) returns (u: User)
    requires forall r :: r in roles ==> r.roleType.Some?
    requires TypesOf(roles) == row.roles
    ensures fresh(u) && fresh(u.roles) && u.roles.elems == roles
    ensures IsLoaded(u, id, row)
  {
    var rs := new RoleSet.Of(roles);
    u := new User(row.username, row.email, row.password);
    u.SetId(Some(id));
    u.SetRoles(rs);
  }

  /** A token entity populated from a row, with its owner already loaded. */
  method NewToken(k: int, owner: User, value: string, expiry: Instant) returns (t: RefreshToken)
    ensures fresh(t) && t.id == k && t.user == owner
    ensures t.token == Some(value) && t.expiryDate == Some(expiry)
  {
    t := new RefreshToken();
    t.SetId(k);
    t.SetUser(owner);
    t.SetToken(Some(value));
    t.SetExpiryDate(Some(expiry));
  }

  class Database {
    var users: map<int, UserRow>
    var tokens: map<int, TokenRow>
    var roleObjects: map<RoleType, Role>
    var nextUserId: int
    var nextTokenId: int

    ghost predicate Valid()
      reads this, roleObjects.Values
    {
      && (forall t :: t in roleObjects ==> roleObjects[t].roleType == Some(t))
      && 0 < nextUserId && 0 < nextTokenId
      && (forall id :: id in users ==> 0 < id < nextUserId && users[id].roles <= roleObjects.Keys)
      && UniqueUsernames(users) && UniqueEmails(users)
      && (forall k :: k in tokens ==> 0 < k < nextTokenId && tokens[k].userId in users)
      && OneTokenPerUser(tokens) && UniqueTokenValues(tokens)
    }

    /** An empty database whose roles table is seeded with the given role rows. */
    constructor (seeded: map<RoleType, Role>)
      requires forall t :: t in seeded ==> seeded[t].roleType == Some(t)
      ensures Valid()
      ensures users == map[] && tokens == map[] && roleObjects == seeded
    {
      users, tokens, roleObjects := map[], map[], seeded;
      nextUserId, nextTokenId := 1, 1;
    }

    lemma ManagedRolesTyped()
      requires Valid()
      ensures forall r :: r in roleObjects.Values ==> r.roleType.Some? && r.roleType.value in roleObjects
    {
      forall r | r in roleObjects.Values
        ensures r.roleType.Some? && r.roleType.value in roleObjects
      {
        var t :| t in roleObjects && roleObjects[t] == r;
      }
    }

    /** UserRepository.existsByUsername. */
    method ExistsByUsername(name: string) returns (b: bool)
      ensures b <==> exists id :: id in users && users[id].username == name
    {
      b := UsernameTaken(users, name);
    }

    /** UserRepository.existsByEmail. */
    method ExistsByEmail(email: string) returns (b: bool)
      ensures b <==> exists id :: id in users && users[id].email == email
    {
      b := EmailTaken(users, email);
    }

    /** The managed role objects of the given role types. */
    function ManagedRoles(types: set<RoleType>): set<Role>
      reads this
      requires types <= roleObjects.Keys
    {
      set t | t in types :: roleObjects[t]
    }

    lemma ManagedRolesHaveTheirTypes(types: set<RoleType>)
      requires Valid() && types <= roleObjects.Keys
      ensures forall r :: r in ManagedRoles(types) ==> r.roleType.Some?
      ensures TypesOf(ManagedRoles(types)) == types
      ensures ManagedRoles(types) <= roleObjects.Values
    {
      var managed := ManagedRoles(types);
      forall t | t in types ensures t in TypesOf(managed) {
        assert roleObjects[t] in managed;
      }
    }

    method LoadUser(id: int) returns (u: User)
      requires Valid() && id in users
      ensures fresh(u) && fresh(u.roles)
      ensures IsLoaded(u, id, users[id]) && u.roles.elems <= roleObjects.Values
    {
      var row := users[id];
      var managed := ManagedRoles(row.roles);
      ManagedRolesHaveTheirTypes(row.roles);
      u := NewUser(id, row, managed);
    }

    /** UserRepository.findByUsername. */
    method FindUserByUsername(name: string) returns (u: Option<User>)
      requires Valid()
      ensures u.None? <==> !UsernameTaken(users, name)
      ensures u.Some? ==> fresh(u.value) && fresh(u.value.roles) && u.value.roles.elems <= roleObjects.Values
      ensures u.Some? ==> IsLoaded(u.value, UserIdOf(users, name).value, users[UserIdOf(users, name).value])
    {
      if id :| id in users && users[id].username == name {
        UserIdOfUnique(users, name, id);
        var user := LoadUser(id);
        u := Some(user);
      } else {
        u := None;
      }
    }

    /** RoleRepository.findByType. */
    method FindRoleByType(t: RoleType) returns (r: Option<Role>)
      requires Valid()
      ensures r.Some? <==> t in roleObjects
      ensures r.Some? ==> r.value == roleObjects[t] && r.value.roleType == Some(t)
    {
      r := if t in roleObjects then Some(roleObjects[t]) else None;
    }

    /** UserRepository.save of a new user: the row gets the next generated id, which is
        also written back to the entity. The unique username and email columns are the
        caller's obligation. */
    method SaveUser(u: User)
      requires Valid()
      requires u.id == None && u.username.Some? && u.email.Some? && u.password.Some?
      requires !UsernameTaken(users, u.username.value) && !EmailTaken(users, u.email.value)
      requires u.roles.elems <= roleObjects.Values
      modifies this, u
      ensures Valid()
      ensures u.id == Some(old(nextUserId)) && u.roles == old(u.roles)
      ensures u.username == old(u.username) && u.email == old(u.email) && u.password == old(u.password)
      ensures forall r :: r in u.roles.elems ==> r.roleType.Some?
      ensures users == old(users)[old(nextUserId) :=
                UserRow(u.username.value, u.email.value, u.password.value, TypesOf(u.roles.elems))]
      ensures tokens == old(tokens) && roleObjects == old(roleObjects)
      ensures nextUserId == old(nextUserId) + 1 && nextTokenId == old(nextTokenId)
    {
      ManagedRolesTyped();
      var row := UserRow(u.username.value, u.email.value, u.password.value, TypesOf(u.roles.elems));
      var id := nextUserId;
      users := users[id := row];
      nextUserId := nextUserId + 1;
      u.SetId(Some(id));
    }

    method LoadToken(k: int) returns (t: RefreshToken)
      requires Valid() && k in tokens
      ensures fresh(t) && t.user != null && fresh(t.user) && fresh(t.user.roles)
      ensures t.id == k && t.token == Some(tokens[k].token) && t.expiryDate == Some(tokens[k].expiryDate)
      ensures IsLoaded(t.user, tokens[k].userId, users[tokens[k].userId])
    {
      var row := tokens[k];
      var owner := LoadUser(row.userId);
      t := NewToken(k, owner, row.token, row.expiryDate);
    }

    /** RefreshTokenRepository.findByToken. */
    method FindTokenByValue(value: string) returns (t: Option<RefreshToken>)
      requires Valid()
      ensures t.None? <==> TokenIdOfValue(tokens, value).None?
      ensures t.Some? ==> fresh(t.value) && t.value.user != null && fresh(t.value.user) && fresh(t.value.user.roles)
      ensures t.Some? ==> var k := TokenIdOfValue(tokens, value).value;
                t.value.id == k && t.value.token == Some(value) && t.value.expiryDate == Some(tokens[k].expiryDate)
                && IsLoaded(t.value.user, tokens[k].userId, users[tokens[k].userId])
    {
      if k :| k in tokens && tokens[k].token == value {
        TokenIdOfValueUnique(tokens, value, k);
        var loaded := LoadToken(k);
        t := Some(loaded);
      } else {
        t := None;
      }
    }

    /** RefreshTokenRepository.findByUser: the token whose user_id is the user's id. */
    method FindTokenByUser(u: User) returns (t: Option<RefreshToken>)
      requires Valid() && u.id.Some?
      ensures t.None? <==> TokenIdOfUser(tokens, u.id.value).None?
      ensures t.Some? ==> fresh(t.value) && t.value.user != null && fresh(t.value.user) && fresh(t.value.user.roles)
      ensures t.Some? ==> var k := TokenIdOfUser(tokens, u.id.value).value;
                t.value.id == k && t.value.token == Some(tokens[k].token) && t.value.expiryDate == Some(tokens[k].expiryDate)
                && IsLoaded(t.value.user, u.id.value, users[u.id.value])
    {
      if k :| k in tokens && tokens[k].userId == u.id.value {
        TokenIdOfUserUnique(tokens, u.id.value, k);
        var loaded := LoadToken(k);
        t := Some(loaded);
      } else {
        t := None;
      }
    }

    /** RefreshTokenRepository.save: an entity with id 0 is inserted under the next
        generated id, which is written back to it; any other entity overwrites the row
        with its id. A duplicate token value or a second token for the same user violates
        a unique column and nothing is written. */
    method SaveToken(t: RefreshToken) returns (ok: bool)
      requires Valid()
      requires t.user != null && t.user.id.Some? && t.user.id.value in users
      requires t.token.Some? && t.expiryDate.Some?
      requires t.id == 0 || t.id in tokens
      modifies this, t
      ensures Valid()
      ensures var key := if old(t.id) == 0 then old(nextTokenId) else old(t.id);
              var row := TokenRow(old(t.user.id.value), old(t.token.value), old(t.expiryDate.value));
              && (ok <==> !Conflicts(old(tokens), key, row))
              && (ok ==> tokens == old(tokens)[key := row] && t.id == key)
              && (!ok ==> tokens == old(tokens) && t.id == old(t.id))
      ensures t.user == old(t.user) && t.token == old(t.token) && t.expiryDate == old(t.expiryDate)
      ensures users == old(users) && roleObjects == old(roleObjects) && nextUserId == old(nextUserId)
      ensures nextTokenId == if ok && old(t.id) == 0 then old(nextTokenId) + 1 else old(nextTokenId)
    {
      var key := if t.id == 0 then nextTokenId else t.id;
      var row := TokenRow(t.user.id.value, t.token.value, t.expiryDate.value);
      if Conflicts(tokens, key, row) {
        ok := false;
      } else {
        ok := true;
        tokens := tokens[key := row];
        if t.id == 0 {
          nextTokenId := nextTokenId + 1;
        }
        t.SetId(key);
      }
    }

    /** RefreshTokenRepository.delete: removes the row with the entity's id, if any. */
    method DeleteToken(t: RefreshToken)
      requires Valid()
      modifies this
      ensures Valid()
      ensures tokens == old(tokens) - {t.id}
      ensures users == old(users) && roleObjects == old(roleObjects)
      ensures nextUserId == old(nextUserId) && nextTokenId == old(nextTokenId)
    {
      tokens := tokens - {t.id};
    }

    /** RefreshTokenRepository.deleteByUser: removes every token of the user and returns
        how many rows it removed. */
    method DeleteTokensByUser(u: User) returns (count: int)
      requires Valid() && u.id.Some?
      modifies this
      ensures Valid()
      ensures tokens == TokensWithout(old(tokens), u.id.value)
      ensures count == |TokenIdsOfUser(old(tokens), u.id.value)|
      ensures users == old(users) && roleObjects == old(roleObjects)
      ensures nextUserId == old(nextUserId) && nextTokenId == old(nextTokenId)
    {
      count := |TokenIdsOfUser(tokens, u.id.value)|;
      tokens := TokensWithout(tokens, u.id.value);
    }
  }
}
