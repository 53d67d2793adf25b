/** RefreshTokenService: creates, looks up, expires and deletes refresh tokens. The token
    table holds at most one token per user: creation reuses the user's row. Expiry is
    checked lazily, when a token is presented. The clock and the random UUID are
    parameters. */
module RefreshTokenServices {
  import opened Wrappers
  import opened Users
  import opened RefreshTokens
  import opened Repositories
  import opened Failures

  /** The expiry test of verifyExpiration: expiryDate.compareTo(now) < 0. */
  predicate IsExpired(expiry: Instant, now: Instant) {
    expiry < now
  }

  /** A token whose expiry is exactly now is still valid; any earlier instant has expired. */
  lemma ExpiryBoundary(now: Instant)
    ensures !IsExpired(now, now)
    ensures forall e :: e < now ==> IsExpired(e, now)
    ensures forall e :: now <= e ==> !IsExpired(e, now)
  {
  }

  /** A token created at `now` with a non-negative duration of `duration` milliseconds has
      not expired at `now`, and has expired at `later` exactly when more than `duration`
      milliseconds (counted in nanoseconds) have passed. */
  lemma CreatedTokenLifetime(now: Instant, duration: int, later: Instant)
    requires 0 <= duration
    ensures !IsExpired(PlusMillis(now, duration), now)
    ensures IsExpired(PlusMillis(now, duration), later) <==> later - now > duration * 1_000_000
  {
  }

  /** The id the upsert writes to: the user's existing token row, or the next generated
      id. */
  ghost function UpsertKey(tokens: map<int, TokenRow>, nextId: int, uid: int): int {
    match TokenIdOfUser(tokens, uid)
    case Some(k) => k
    case None => nextId
  }

  /** After a successful upsert the user owns exactly one token, the one written; every
      other user's tokens are untouched; and the table's keys change only when the user
      had no token before. */
  lemma UpsertOneTokenPerUser(tokens: map<int, TokenRow>, nextId: int, row: TokenRow)
    requires OneTokenPerUser(tokens) && UniqueTokenValues(tokens)
    requires forall k :: k in tokens ==> k < nextId
    requires !Conflicts(tokens, UpsertKey(tokens, nextId, row.userId), row)
    ensures var key := UpsertKey(tokens, nextId, row.userId);
            var after := tokens[key := row];
            && OneTokenPerUser(after) && UniqueTokenValues(after)
            && TokenIdsOfUser(after, row.userId) == {key}
            && (forall k :: k in tokens && tokens[k].userId != row.userId ==> k in after && after[k] == tokens[k])
            && (TokenIdOfUser(tokens, row.userId).Some? ==> after.Keys == tokens.Keys)
            && (TokenIdOfUser(tokens, row.userId).None? ==> after.Keys == tokens.Keys + {nextId})
  {
    var key := UpsertKey(tokens, nextId, row.userId);
    var after := tokens[key := row];
    var ids := TokenIdsOfUser(after, row.userId);
    assert key in ids;
    forall j | j in ids ensures j == key {
      if j != key {
        TokenIdOfUserUnique(tokens, row.userId, j);
      }
    }
    assert ids == {key};
  }

  /** Inserting a second row for a user who already has one always collides with the
      one-token-per-user column, which is why creation must reuse the existing row. */
  lemma InsertBesideExistingConflicts(tokens: map<int, TokenRow>, key: int, row: TokenRow)
    requires TokenIdOfUser(tokens, row.userId).Some? && key != TokenIdOfUser(tokens, row.userId).value
    ensures Conflicts(tokens, key, row)
  {
  }

  /** Under the one-token-per-user column a user owns no more than one token, so
      deleteByUser removes at most one row. */
  lemma AtMostOneTokenPerUser(tokens: map<int, TokenRow>, uid: int)
    requires OneTokenPerUser(tokens)
    ensures |TokenIdsOfUser(tokens, uid)| <= 1
  {
    var ids := TokenIdsOfUser(tokens, uid);
    if k :| k in tokens && tokens[k].userId == uid {
      forall j | j in ids ensures j == k {
        assert tokens[j].userId == tokens[k].userId;
      }
      assert forall j :: j in ids <==> j in {k};
      assert ids == {k};
    } else {
      assert forall j :: j in ids <==> j in {};
      assert ids == {};
    }
  }

  /** After deleteByUser the user owns no token and no token value of theirs is found. */
  lemma DeletedUserHasNoToken(tokens: map<int, TokenRow>, uid: int, value: string)
    requires UniqueTokenValues(tokens)
    requires TokenIdOfValue(tokens, value).Some? && tokens[TokenIdOfValue(tokens, value).value].userId == uid
    ensures TokenIdOfUser(TokensWithout(tokens, uid), uid).None?
    ensures TokenIdOfValue(TokensWithout(tokens, uid), value).None?
  {
  }

  class RefreshTokenService {
    /** jwt.refresh.expiration, in milliseconds. */
    const tokenDuration: int
    /** The store behind both the token and the user repository. */
    const db: Database

    constructor (duration: int, store: Database)
      ensures tokenDuration == duration && db == store
    {
      tokenDuration := duration;
      db := store;
    }

    ghost predicate Valid()
      reads this, db, db.roleObjects.Values
    {
      db.Valid()
    }

    /** findByToken: a read-only lookup by token value. */
    method FindByToken(value: string) returns (t: Option<RefreshToken>)
      requires Valid()
      ensures t.None? <==> TokenIdOfValue(db.tokens, value).None?
      ensures t.Some? ==> var k := TokenIdOfValue(db.tokens, value).value;
                && fresh(t.value) && t.value.user != null && fresh(t.value.user) && fresh(t.value.user.roles)
                && t.value.id == k && t.value.token == Some(value)
                && t.value.expiryDate == Some(db.tokens[k].expiryDate)
                && IsLoaded(t.value.user, db.tokens[k].userId, db.users[db.tokens[k].userId])
    {
      t := db.FindTokenByValue(value);
    }

    /** createRefreshToken. Fails with NoSuchElement when no user has that name. Otherwise
        the user's existing token entity, or a new one, gets the user, the expiry
        now + tokenDuration and the token value `uuid`, and is saved; the save fails
        when `uuid` already belongs to another token. */
    method CreateRefreshToken(username: string, now: Instant, uuid: string) returns (r: Result<RefreshToken, Failure>)
      requires Valid()
      modifies db
      ensures Valid()
      ensures db.users == old(db.users) && db.roleObjects == old(db.roleObjects)
      ensures db.nextUserId == old(db.nextUserId)
      ensures db.nextTokenId == if old(db.nextTokenId) in db.tokens then old(db.nextTokenId) + 1 else old(db.nextTokenId)
      ensures !UsernameTaken(db.users, username) ==> r == Failure(NoSuchElement) && db.tokens == old(db.tokens)
      ensures UsernameTaken(db.users, username) ==>
                var uid := UserIdOf(db.users, username).value;
                var key := UpsertKey(old(db.tokens), old(db.nextTokenId), uid);
                var row := TokenRow(uid, uuid, PlusMillis(now, tokenDuration));
                && (Conflicts(old(db.tokens), key, row) ==> r == Failure(DataIntegrityViolation) && db.tokens == old(db.tokens))
                && (!Conflicts(old(db.tokens), key, row) ==>
                      && db.tokens == old(db.tokens)[key := row]
                      && r.Success? && r.value.id == key && r.value.token == Some(uuid)
                      && r.value.expiryDate == Some(PlusMillis(now, tokenDuration))
                      && r.value.user != null && r.value.user.username == Some(username)
                      && r.value.user.id == Some(uid))
    {
      var found := db.FindUserByUsername(username);
      if found.None? {
        return Failure(NoSuchElement);
      }
      var user := found.value;
      ghost var uid := UserIdOf(db.users, username).value;
      var existing := db.FindTokenByUser(user);
      var refreshToken: RefreshToken;
      if existing.Some? {
        refreshToken := existing.value;
      } else {
        refreshToken := new RefreshToken();
      }
      refreshToken.SetUser(user);
      refreshToken.SetExpiryDate(Some(PlusMillis(now, tokenDuration)));
      refreshToken.SetToken(Some(uuid));
      var ok := db.SaveToken(refreshToken);
      if ok {
        r := Success(refreshToken);
      } else {
        r := Failure(DataIntegrityViolation);
      }
    }

    /** verifyExpiration. An expired token is deleted and reported with its own value and
        the expiry reason; any other token is returned as it is, and nothing changes. */
    method VerifyExpiration(token: RefreshToken, now: Instant) returns (r: Result<RefreshToken, Failure>)
      requires Valid() && token.expiryDate.Some?
      modifies db
      ensures Valid()
      ensures db.users == old(db.users) && db.roleObjects == old(db.roleObjects)
      ensures db.nextUserId == old(db.nextUserId) && db.nextTokenId == old(db.nextTokenId)
      ensures IsExpired(token.expiryDate.value, now) ==>
                && r == Failure(TokenRefresh(token.token, ExpiredReason))
                && db.tokens == old(db.tokens) - {token.id}
      ensures !IsExpired(token.expiryDate.value, now) ==> r == Success(token) && db.tokens == old(db.tokens)
    {
      if IsExpired(token.expiryDate.value, now) {
        db.DeleteToken(token);
        return Failure(TokenRefresh(token.token, ExpiredReason));
      }
      r := Success(token);
    }

    /** deleteByUsername: -1 when no user has that name (nothing changes); otherwise every
        token of the user is removed and their number is returned. */
    method DeleteByUsername(username: string) returns (count: int)
      requires Valid()
      modifies db
      ensures Valid()
      ensures db.users == old(db.users) && db.roleObjects == old(db.roleObjects)
      ensures db.nextUserId == old(db.nextUserId) && db.nextTokenId == old(db.nextTokenId)
      ensures !UsernameTaken(db.users, username) ==> count == -1 && db.tokens == old(db.tokens)
      ensures UsernameTaken(db.users, username) ==>
                var uid := UserIdOf(db.users, username).value;
                && db.tokens == TokensWithout(old(db.tokens), uid)
                && count == |TokenIdsOfUser(old(db.tokens), uid)|
                && 0 <= count <= 1
    {
      var user := db.FindUserByUsername(username);
      count := -1;
      if user.Some? {
        AtMostOneTokenPerUser(db.tokens, user.value.id.value);
        count := db.DeleteTokensByUser(user.value);
      }
    }
  }
}
