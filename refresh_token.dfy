/** The RefreshToken entity: a primitive id (0 until persisted), the owning user, the
    opaque token string and the expiry instant. */
module RefreshTokens {
  import opened Wrappers
  import opened Users

  /** java.time.Instant as a count of nanoseconds since the epoch. */
  type Instant = int

  /** Instant.plusMillis. */
  function PlusMillis(t: Instant, millis: int): Instant {
    t + millis * 1_000_000
  }

  class RefreshToken {
    var id: int
    var user: User?
    var token: Option<string>
    var expiryDate: Option<Instant>

    /** new RefreshToken(): id 0 and every reference field null. */
    constructor ()
      ensures id == 0 && user == null && token == None && expiryDate == None
    {
      id, user, token, expiryDate := 0, null, None, None;
    }

    method SetId(newId: int)
      modifies this
      ensures id == newId
      ensures user == old(user) && token == old(token) && expiryDate == old(expiryDate)
    {
      id := newId;
    }

    method SetUser(u: User?)
      modifies this
      ensures user == u
      ensures id == old(id) && token == old(token) && expiryDate == old(expiryDate)
    {
      user := u;
    }

    method SetToken(t: Option<string>)
      modifies this
      ensures token == t
      ensures id == old(id) && user == old(user) && expiryDate == old(expiryDate)
    {
      token := t;
    }

    method SetExpiryDate(e: Option<Instant>)
      modifies this
      ensures expiryDate == e
      ensures id == old(id) && user == old(user) && token == old(token)
    {
      expiryDate := e;
    }
  }
}
