# store-api sign-in core, modelled in Dafny

This project models the decision logic of the store-api sign-in service: a Spring Boot
application that registers users, signs them in with a JWT access token and a refresh
token, renews access tokens from refresh tokens, and logs users out.

- **Entities.** `User`, `Role` and `RefreshToken` are classes whose setters update one
  field and leave the others alone. A user's roles are a `RoleSet` object held by
  reference, so a set handed to `setRoles` stays shared with the caller. `RoleType` is a
  datatype with its titles and the linear `findByTitle` search. `User.DeclaredValid`
  states the declared field constraints: username, email and password not blank, at most
  20, 50 and 120 characters, and a well-formed email (`@Email`, given as a parameter).
- **Store.** The three Spring Data repositories are one in-memory `Database` object. It
  holds value rows keyed by generated id: users with their role types, and refresh tokens
  with their owner's id, value and expiry. Its invariant `Valid` states the declared unique
  columns (username, email, token value) and the one-to-one user of a refresh token.
  Finders hand out freshly loaded entities, and `save` writes an entity back under its id.
- **Principals.** `UserDetailsImpl` has no setters, so it is the datatype `UserDetails`.
  `Build` maps roles to authority names. `Equals` compares ids. The four account flags are
  always true. `LoadUserByUsername` finds the user or fails with `UsernameNotFound`.
- **Request filter.** `ParseJwt` strips the case-sensitive `"Bearer "` prefix.
  `DoFilterInternal` installs an authentication only for a present, valid token whose
  subject is a stored user, and always runs the filter chain once.
- **Refresh tokens.** `CreateRefreshToken` upserts the user's single token row.
  `VerifyExpiration` deletes and reports an expired token. `DeleteByUsername` returns -1
  for an unknown user.
- **Controller.** `SignUp`, `SignIn`, `TokenRefresh` and `Logout` return an HTTP status
  with a body, or the `Failure` an escaping exception stands for. `TokenRefreshException`
  is `Failure.TokenRefresh`; its message format and its 403 status are in `Failures`.
- **Environment.** `Environment` holds the override map; `GetEnv` follows
  `HashMap.computeIfAbsent`, and `SetEnv` follows `put`.

Foreign calls are parameters of the operations that make them. These are the clock
(`now`, in nanoseconds), the random UUID (`uuid`), BCrypt (`encode`), the authentication
manager (`authenticate`), JWT minting (`mint`), and JWT validation and parsing (`validate`,
`subjectOf`). Java `null` is `None`.

A refresh token whose expiry equals the current instant is still valid: `verifyExpiration`
compares with a strict `compareTo(now) < 0` (`RefreshTokenServices.IsExpired`,
`ExpiryBoundary`).

## Model

| member | source | states |
|---|---|---|
| RoleTypes.Title | src/main/java/org/livezey/storeapi/model/RoleType.java:12 | ROLE_USER is titled "user" and ROLE_ADMIN "admin", and no other constant has either title |
| RoleTypes.Name | src/main/java/org/livezey/storeapi/auth/UserDetailsImpl.java:58 | the authority of ROLE_USER is "ROLE_USER" and of ROLE_ADMIN "ROLE_ADMIN", each naming only its own constant |
| RoleTypes.FirstWithTitle | src/main/java/org/livezey/storeapi/model/RoleType.java:43-47 | a result is a value with exactly that title, the first such in order; none exactly when no value has the title |
| RoleTypes.FindByTitle | src/main/java/org/livezey/storeapi/model/RoleType.java:40-50 | the loop over values() returns the first value whose title equals the argument, or null |
| RoleTypes.ValuesComplete | src/main/java/org/livezey/storeapi/model/RoleType.java:12 | values() (the constant `Values`, in declaration order) lists every role type, each once |
| RoleTypes.TitleInjective | src/main/java/org/livezey/storeapi/model/RoleType.java:12 | distinct role types have distinct titles |
| RoleTypes.NameInjective | src/main/java/org/livezey/storeapi/model/RoleType.java:12 | distinct role types have distinct names |
| RoleTypes.FindByTitleRoundTrip | src/main/java/org/livezey/storeapi/model/RoleType.java:30-50 | findByTitle(rt.getTitle()) is rt for every role type |
| RoleTypes.FindByTitleExactly | src/main/java/org/livezey/storeapi/model/RoleType.java:40-50 | "user" gives ROLE_USER, "admin" gives ROLE_ADMIN, and every other string gives null |
| Roles.Role.Empty | src/main/java/org/livezey/storeapi/model/Role.java:34 | the default constructor leaves id and type unset |
| Roles.Role.constructor | src/main/java/org/livezey/storeapi/model/Role.java:41-43 | Role(type) sets the type and leaves the id unset |
| Roles.Role.SetId | src/main/java/org/livezey/storeapi/model/Role.java:59-61 | setId stores the id and keeps the type |
| Roles.Role.SetType | src/main/java/org/livezey/storeapi/model/Role.java:77-79 | setType stores the type and keeps the id |
| Roles.TypesOfMeaning | src/main/java/org/livezey/storeapi/auth/UserDetailsImpl.java:57-58 | a type is among the roles' types exactly when some role has it |
| Users.RoleSet.constructor | src/main/java/org/livezey/storeapi/model/User.java:52 | a new role set is empty |
| Users.RoleSet.Add | src/main/java/org/livezey/storeapi/controller/AuthController.java:86 | Set.add adds the role and reports whether it was new |
| Users.User.Empty | src/main/java/org/livezey/storeapi/model/User.java:57 | User() leaves every field null and starts with a new empty role set |
| Users.User.constructor | src/main/java/org/livezey/storeapi/model/User.java:66-70 | User(username, email, password) stores the three values, with no id and an empty role set |
| Users.User.SetId | src/main/java/org/livezey/storeapi/model/User.java:86-88 | setId changes only the id |
| Users.User.SetUsername | src/main/java/org/livezey/storeapi/model/User.java:104-106 | setUsername changes only the username |
| Users.User.SetEmail | src/main/java/org/livezey/storeapi/model/User.java:122-124 | setEmail changes only the email |
| Users.User.SetPassword | src/main/java/org/livezey/storeapi/model/User.java:140-142 | setPassword changes only the password |
| Users.User.SetRoles | src/main/java/org/livezey/storeapi/model/User.java:158-160 | setRoles keeps the given set object itself and changes no other field |
| Users.DeclaredValidBounds | src/main/java/org/livezey/storeapi/model/User.java:36-47 | a user meeting the declared constraints has a username of 1 to 20, an email of 1 to 50 that is well-formed, and a password of 1 to 120 characters; a username of only spaces and controls never meets them |
| Users.AddAfterSetRolesIsShared | src/main/java/org/livezey/storeapi/model/User.java:158-160 | a role added to the caller's set after setRoles is visible through the user |
| RefreshTokens.RefreshToken.constructor | src/main/java/org/livezey/storeapi/model/RefreshToken.java:23-35 | a new token has id 0 and null user, token and expiry |
| RefreshTokens.RefreshToken.SetId | src/main/java/org/livezey/storeapi/model/RefreshToken.java:51-53 | setId changes only the id |
| RefreshTokens.RefreshToken.SetUser | src/main/java/org/livezey/storeapi/model/RefreshToken.java:69-71 | setUser changes only the user |
| RefreshTokens.RefreshToken.SetToken | src/main/java/org/livezey/storeapi/model/RefreshToken.java:87-89 | setToken changes only the token |
| RefreshTokens.RefreshToken.SetExpiryDate | src/main/java/org/livezey/storeapi/model/RefreshToken.java:105-107 | setExpiryDate changes only the expiry |
| Failures.TokenRefreshMessage | src/main/java/org/livezey/storeapi/auth/TokenRefreshException.java:24-26 | the message is "Failed for [", the token (or "null"), "]: " and the message, each at its fixed position |
| Failures.DeclaredStatus | src/main/java/org/livezey/storeapi/auth/TokenRefreshException.java:13 | exactly the token-refresh failure carries a declared status, 403 |
| Failures.TokenRefreshMessageInjective | src/main/java/org/livezey/storeapi/auth/TokenRefreshException.java:25 | equal messages name the same token and reason, for tokens without ']' |
| Repositories.UserIdOf | src/main/java/org/livezey/storeapi/jpa/UserRepository.java:25 | the id found for a name holds a user of that name; none exactly when no user has it |
| Repositories.TokenIdOfUser | src/main/java/org/livezey/storeapi/jpa/RefreshTokenRepository.java:35 | the id found holds a token of that user; none exactly when the user has no token |
| Repositories.TokenIdOfValue | src/main/java/org/livezey/storeapi/jpa/RefreshTokenRepository.java:27 | the id found holds a token with that value; none exactly when no token has it |
| Repositories.TokensWithout | src/main/java/org/livezey/storeapi/jpa/RefreshTokenRepository.java:43-44 | deleteByUser keeps exactly the rows of other users, unchanged |
| Repositories.UserIdOfUnique | src/main/java/org/livezey/storeapi/model/User.java:28-29 | with unique usernames, the lookup by name finds the one user so named |
| Repositories.TokenIdOfUserUnique | src/main/java/org/livezey/storeapi/model/RefreshToken.java:27-29 | with one token per user, the lookup by user finds that token |
| Repositories.TokenIdOfValueUnique | src/main/java/org/livezey/storeapi/model/RefreshToken.java:31-32 | with unique token values, the lookup by value finds that token |
| Repositories.Database.ExistsByUsername | src/main/java/org/livezey/storeapi/jpa/UserRepository.java:33 | true exactly when some user has the name |
| Repositories.Database.ExistsByEmail | src/main/java/org/livezey/storeapi/jpa/UserRepository.java:41 | true exactly when some user has the email |
| Repositories.Database.FindUserByUsername | src/main/java/org/livezey/storeapi/jpa/UserRepository.java:25 | empty exactly when no user has the name; otherwise a fresh entity loaded from that user's row |
| Repositories.Database.FindRoleByType | src/main/java/org/livezey/storeapi/jpa/RoleRepository.java:26 | the managed role of that type, or empty when the roles table lacks it |
| Repositories.Database.SaveUser | src/main/java/org/livezey/storeapi/controller/AuthController.java:88 | a new user's row is stored under the next id, which is written back to the entity and then advances by one; the invariant is kept |
| Repositories.Database.FindTokenByValue | src/main/java/org/livezey/storeapi/jpa/RefreshTokenRepository.java:27 | empty exactly when no token has the value; otherwise that token, loaded with its owner |
| Repositories.Database.FindTokenByUser | src/main/java/org/livezey/storeapi/jpa/RefreshTokenRepository.java:35 | empty exactly when the user has no token; otherwise a fresh entity with that row's id, value and expiry, whose user is loaded from the owner's row |
| Repositories.Database.SaveToken | src/main/java/org/livezey/storeapi/auth/RefreshTokenService.java:62 | inserts under a new id or overwrites the entity's row; refused, changing nothing, when a unique column would clash; the id generator advances only for an insert |
| Repositories.Database.DeleteToken | src/main/java/org/livezey/storeapi/auth/RefreshTokenService.java:75 | removes exactly the row with the entity's id |
| Repositories.Database.DeleteTokensByUser | src/main/java/org/livezey/storeapi/jpa/RefreshTokenRepository.java:43-44 | removes every token of the user and returns how many there were |
| Principals.AuthorityNames | src/main/java/org/livezey/storeapi/auth/UserDetailsImpl.java:57-58 | every role type gives its name as an authority, and every authority is such a name |
| Principals.AuthorityNamesExact | src/main/java/org/livezey/storeapi/auth/UserDetailsImpl.java:57-58 | a type's name is granted exactly when the type is among the roles |
| Principals.AuthorityNamesCount | src/main/java/org/livezey/storeapi/auth/UserDetailsImpl.java:57-58 | there are as many authorities as role types: one per role |
| Principals.Build | src/main/java/org/livezey/storeapi/auth/UserDetailsImpl.java:56-62 | copies id, username, email and password, and grants one authority per role, named by its type |
| Principals.IsAccountNonExpired | src/main/java/org/livezey/storeapi/auth/UserDetailsImpl.java:110-112 | always true |
| Principals.IsAccountNonLocked | src/main/java/org/livezey/storeapi/auth/UserDetailsImpl.java:118-120 | always true |
| Principals.IsCredentialsNonExpired | src/main/java/org/livezey/storeapi/auth/UserDetailsImpl.java:126-128 | always true |
| Principals.IsEnabled | src/main/java/org/livezey/storeapi/auth/UserDetailsImpl.java:134-136 | always true |
| Principals.Equals | src/main/java/org/livezey/storeapi/auth/UserDetailsImpl.java:142-148 | reflexive; false for null and other classes; otherwise true exactly when the ids are equal |
| Principals.EqualsSymmetric | src/main/java/org/livezey/storeapi/auth/UserDetailsImpl.java:147 | equals between principals is symmetric |
| Principals.EqualsTransitive | src/main/java/org/livezey/storeapi/auth/UserDetailsImpl.java:147 | equals between principals is transitive |
| UserDetailsServices.DetailsOf | src/main/java/org/livezey/storeapi/auth/UserDetailsServiceImpl.java:34 | the principal of a stored user has its id, name, email and password, and one authority per stored role |
| UserDetailsServices.BuildOfLoaded | src/main/java/org/livezey/storeapi/auth/UserDetailsServiceImpl.java:34 | building from a loaded entity gives the principal of its row |
| UserDetailsServices.LoadResultMeaning | src/main/java/org/livezey/storeapi/auth/UserDetailsServiceImpl.java:30-35 | fails with "User Not Found: " + name exactly for an unknown name; otherwise that user, with the requested name and one authority per role |
| UserDetailsServices.LoadUserByUsername | src/main/java/org/livezey/storeapi/auth/UserDetailsServiceImpl.java:30-35 | answers as LoadResult without changing the store; the principal found has the requested name |
| Security.SecurityContext.SetAuthentication | src/main/java/org/livezey/storeapi/auth/AuthTokenFilter.java:55 | the context holds the given authentication |
| Security.FilterChain.DoFilter | src/main/java/org/livezey/storeapi/auth/AuthTokenFilter.java:61 | one more invocation of the chain |
| AuthTokenFilters.ParseJwt | src/main/java/org/livezey/storeapi/auth/AuthTokenFilter.java:71-79 | a token exactly when the header has text and starts with "Bearer "; then the header is "Bearer " followed by the token |
| AuthTokenFilters.ParseBareBearer | src/main/java/org/livezey/storeapi/auth/AuthTokenFilter.java:76 | a header of exactly "Bearer " gives the empty token, not null |
| AuthTokenFilters.ParseRoundTrip | src/main/java/org/livezey/storeapi/auth/AuthTokenFilter.java:75-76 | parsing "Bearer " + s gives s back |
| AuthTokenFilters.ParseIsCaseSensitive | src/main/java/org/livezey/storeapi/auth/AuthTokenFilter.java:75 | a header starting "bearer " gives null |
| AuthTokenFilters.FilterOutcomeMeaning | src/main/java/org/livezey/storeapi/auth/AuthTokenFilter.java:47-55 | an authentication exactly when a token is parsed, validates and names a stored user; its principal is that user, with its authorities and no credentials |
| AuthTokenFilters.DoFilterInternal | src/main/java/org/livezey/storeapi/auth/AuthTokenFilter.java:42-62 | the chain runs exactly once; the context gets the filter's authentication when there is one, and is otherwise left as it was |
| RefreshTokenServices.ExpiryBoundary | src/main/java/org/livezey/storeapi/auth/RefreshTokenService.java:74 | IsExpired: a token expiring exactly now is valid; only an earlier expiry has passed |
| RefreshTokenServices.CreatedTokenLifetime | src/main/java/org/livezey/storeapi/auth/RefreshTokenService.java:60 | a token created now with a non-negative duration (PlusMillis) is not expired now, and is expired later exactly when more than the duration has passed |
| RefreshTokenServices.UpsertOneTokenPerUser | src/main/java/org/livezey/storeapi/auth/RefreshTokenService.java:53-62 | after the upsert the user owns exactly the written token; other users' tokens are untouched; an existing row is reused; the unique columns stay unique |
| RefreshTokenServices.InsertBesideExistingConflicts | src/main/java/org/livezey/storeapi/auth/RefreshTokenService.java:53-54 | a second row for a user who has a token always clashes, so the existing row must be reused |
| RefreshTokenServices.AtMostOneTokenPerUser | src/main/java/org/livezey/storeapi/model/RefreshToken.java:27-29 | a user owns at most one token |
| RefreshTokenServices.DeletedUserHasNoToken | src/main/java/org/livezey/storeapi/auth/RefreshTokenService.java:92-94 | after deleteByUser the user has no token and their token value is no longer found |
| RefreshTokenServices.RefreshTokenService.FindByToken | src/main/java/org/livezey/storeapi/auth/RefreshTokenService.java:41-43 | read-only lookup: empty exactly when no token has the value; otherwise that token with its owner |
| RefreshTokenServices.RefreshTokenService.CreateRefreshToken | src/main/java/org/livezey/storeapi/auth/RefreshTokenService.java:51-64 | NoSuchElement for an unknown user; otherwise the user's row (existing or new) holds uuid and now + duration, and the returned token has that user, value and expiry; the token id generator advances only when a new row was inserted |
| RefreshTokenServices.RefreshTokenService.VerifyExpiration | src/main/java/org/livezey/storeapi/auth/RefreshTokenService.java:73-79 | an expired token is deleted and reported with its value and the expiry reason; any other is returned with nothing changed |
| RefreshTokenServices.RefreshTokenService.DeleteByUsername | src/main/java/org/livezey/storeapi/auth/RefreshTokenService.java:88-96 | -1 and no change for an unknown user; otherwise all of the user's tokens are removed and their count, 0 or 1, returned |
| AuthControllers.RegisteredAddsOneUser | src/main/java/org/livezey/storeapi/controller/AuthController.java:81-88 | sign-up adds one user under a new id with the name, email, encoded password and only ROLE_USER; other rows are kept and names and emails stay unique |
| AuthControllers.RefreshOutcomeMeaning | src/main/java/org/livezey/storeapi/controller/AuthController.java:122-135 | invalid exactly for an unknown token; failures are 403; success is 200 "Bearer" with the same refresh token and a token minted for a live token's owner |
| AuthControllers.RefreshAfterExpiryIsInvalid | src/main/java/org/livezey/storeapi/controller/AuthController.java:125 | a token refused as expired is gone: presenting it again is refused as invalid |
| AuthControllers.RefreshAfterLogoutIsInvalid | src/main/java/org/livezey/storeapi/controller/AuthController.java:141-151 | after the owner logs out, their refresh token is refused as invalid |
| AuthControllers.AuthController.SignUp | src/main/java/org/livezey/storeapi/controller/AuthController.java:68-92 | a taken name, then a taken email, give 400 with their message and save nothing; otherwise 200 and the registered user, or NoSuchElement without ROLE_USER |
| AuthControllers.AuthController.RegisterUser | src/main/java/org/livezey/storeapi/controller/AuthController.java:81-91 | saves the user with the encoded password and ROLE_USER and replies 200 "User registered successfully." |
| AuthControllers.AuthController.SignIn | src/main/java/org/livezey/storeapi/controller/AuthController.java:98-116 | a rejection is BadCredentials and a non-UserDetailsImpl principal ClassCast; the context gets the authentication; a principal without a stored name gives NoSuchElement and a unique-column clash DataIntegrityViolation; otherwise it succeeds, the user's row (existing or new) is the only change, and the reply is 200 "Bearer" with the new refresh token and the principal's name, email and authorities; every failure leaves the tokens unchanged |
| AuthControllers.AuthController.TokenRefresh | src/main/java/org/livezey/storeapi/controller/AuthController.java:122-135 | answers RefreshOutcome and deletes the token exactly when it has expired |
| AuthControllers.AuthController.Logout | src/main/java/org/livezey/storeapi/controller/AuthController.java:141-151 | fails exactly without an authentication; otherwise 200 "Logout successful.", having deleted the tokens of a UserDetailsImpl principal |
| Util.Memo | src/main/java/org/livezey/storeapi/util/Environment.java:24 | getEnv records a fetched non-null value under its key and changes nothing else |
| Util.MemoIsTransparent | src/main/java/org/livezey/storeapi/util/Environment.java:24 | remembering a value changes no later answer |
| Util.GetAfterSet | src/main/java/org/livezey/storeapi/util/Environment.java:33-35 | after setEnv(k, v) with v not null, getEnv(k) is v, and other keys answer as before |
| Util.SetNullFallsBack | src/main/java/org/livezey/storeapi/util/Environment.java:24 | after setEnv(k, null), getEnv(k) falls back to the real environment |
| Util.Environment.constructor | src/main/java/org/livezey/storeapi/util/Environment.java:15 | the override map starts empty |
| Util.Environment.GetEnv | src/main/java/org/livezey/storeapi/util/Environment.java:23-25 | answers the override when it is not null and the real environment otherwise, and updates the map as Memo |
| Util.Environment.SetEnv | src/main/java/org/livezey/storeapi/util/Environment.java:33-35 | changes only key k, to v (null included) |

## Left out

- JWT signing, validation and parsing (JWTUtils) are the parameters `mint`, `validate` and `subjectOf`. Nothing relates a minted token to its subject.
- BCrypt password hashing and the authentication manager's credential check are the parameters `encode` and `authenticate`.
- WebSecurityConfig (bean wiring, path rules, CORS), AuthEntryPointJWT (writes an error body) and ApiController are not part of this model.
- Concurrency and transactions are not modelled: each operation runs alone against the store.
- `Principals.Equals`: compares id values. The source compares boxed `Long` ids with `==`, which is reference comparison; JVM boxing caches are not modelled.
- `AuthTokenFilters.DoFilterInternal`: the catch block also swallows exceptions thrown by token parsing; here `subjectOf` is total, so only the user-not-found failure is caught. The request details set on the authentication are left out.
- `RefreshTokenServices.RefreshTokenService.CreateRefreshToken`: the null check after `orElse(new RefreshToken())` can never fire and is not modelled.
- `RefreshTokenServices.RefreshTokenService.VerifyExpiration`: requires a non-null expiry; the source would throw a NullPointerException, and stored tokens always have one.
- `Principals.Build`: requires every role to have a type; a role without one would throw a NullPointerException, and stored roles always have one.
- Getters are direct field reads; the `UserDetails` datatype has no setters, so its fields never change.
- Lazy loading of a user's roles and the order of the authority list are not modelled; authorities are a set.
- `RefreshTokens.PlusMillis`: `Instant` is an unbounded count of nanoseconds; the overflow check of `Instant.plusMillis` is not modelled.
- `Users.User.DeclaredValid`: validation on save is not modelled; `SaveUser` stores a user whatever its field lengths. The `@Email` check is the parameter `isEmail`. `@Size` counts characters; UTF-16 surrogate pairs are not distinguished.
- `Util.Environment`: the Java override map and its methods are static, shared by every `new Environment()`. The model is one `Environment` object created once; its constructor stands for the static initializer, not for `new Environment()`.
- `Failures`: exception messages are modelled only for TokenRefreshException (`TokenRefreshMessage`) and UsernameNotFoundException (its `message` field); the messages of the other exceptions (`Optional.get`, bad credentials, class cast, null pointer, data integrity) are not modelled.
- `Util.Lookup`, `RefreshTokenServices.IsExpired`, `RefreshTokens.PlusMillis`: specification functions with no contract of their own; their properties are the lemmas `MemoIsTransparent`, `GetAfterSet`, `SetNullFallsBack`, `ExpiryBoundary` and `CreatedTokenLifetime`.
- `Repositories.Database.SaveUser`: requires a free username and email; its only caller, sign-up, checks both first. A clash would be a data-integrity failure.
- Null fields in the request bodies are not modelled. Neither is a null argument to `findByTitle`.
- `Environment.getDefault()` is called by WebSecurityConfig and the test harness, but it does not exist in Environment.java; it is not modelled.
