/** UserDetailsServiceImpl.loadUserByUsername: find the user by name or fail with
    UsernameNotFoundException, then build the principal from the loaded entity. */
module UserDetailsServices {
  import opened Wrappers
  import opened RoleTypes
  import opened Roles
  import opened Users
  import opened Repositories
  import opened Principals
  import opened Failures

  const NotFoundPrefix := "User Not Found: "

  /** The principal built from the row stored under `id`. */
  function DetailsOf(id: int, row: UserRow): (d: UserDetails)
    ensures d.id == Some(id) && d.username == Some(row.username)
    ensures d.email == Some(row.email) && d.password == Some(row.password)
    ensures |d.authorities| == |row.roles|
    ensures forall t :: Name(t) in d.authorities <==> t in row.roles
  {
    AuthorityNamesCount(row.roles);
    forall t ensures Name(t) in AuthorityNames(row.roles) <==> t in row.roles {
      AuthorityNamesExact(row.roles, t);
    }
    UserDetails(Some(id), Some(row.username), Some(row.email), Some(row.password), AuthorityNames(row.roles))
  }

  /** Building the principal from a freshly loaded entity gives the principal of its row. */
  lemma BuildOfLoaded(u: User, id: int, row: UserRow)
    requires IsLoaded(u, id, row)
    ensures Build(u) == DetailsOf(id, row)
  {
  }

  /** What loadUserByUsername answers for a given user table. */
  ghost function LoadResult(users: map<int, UserRow>, name: string): Result<UserDetails, Failure> {
    match UserIdOf(users, name)
    case None => Failure(UsernameNotFound(NotFoundPrefix + name))
    case Some(id) => Success(DetailsOf(id, users[id]))
  }

  /** The answer is the principal of the one user so named, with that very name and one
      authority per stored role, or the not-found failure when there is no such user. */
  lemma LoadResultMeaning(users: map<int, UserRow>, name: string)
    requires UniqueUsernames(users)
    ensures LoadResult(users, name).Failure? <==> !UsernameTaken(users, name)
    ensures LoadResult(users, name).Failure? ==>
              LoadResult(users, name).error == UsernameNotFound("User Not Found: " + name)
    ensures forall id :: id in users && users[id].username == name ==>
              && LoadResult(users, name).Success?
              && LoadResult(users, name).value.id == Some(id)
              && LoadResult(users, name).value.username == Some(name)
              && |LoadResult(users, name).value.authorities| == |users[id].roles|
  {
    forall id | id in users && users[id].username == name
      ensures LoadResult(users, name) == Success(DetailsOf(id, users[id]))
    {
      UserIdOfUnique(users, name, id);
    }
  }

  /** loadUserByUsername. The lookup reads the store and changes nothing in it. */
  method LoadUserByUsername(db: Database, name: string) returns (r: Result<UserDetails, Failure>)
    requires db.Valid()
    ensures r == LoadResult(db.users, name)
    ensures r.Failure? <==> !UsernameTaken(db.users, name)
    ensures r.Success? ==> r.value.username == Some(name)
  {
    var found := db.FindUserByUsername(name);
    match found
    case None =>
      r := Failure(UsernameNotFound(NotFoundPrefix + name));
    case Some(u) =>
      BuildOfLoaded(u, UserIdOf(db.users, name).value, db.users[UserIdOf(db.users, name).value]);
      r := Success(Build(u));
  }
}
