/** AuthTokenFilter: reads the bearer token from the Authorization header and, when it is a
    valid JWT for a known user, installs that user's authentication in the security
    context. Any failure leaves the request unauthenticated; the chain always continues. */
module AuthTokenFilters {
  import opened Wrappers
  import opened Text
  import opened Failures
  import opened Repositories
  import opened Principals
  import opened UserDetailsServices
  import opened Security

  const BearerPrefix := "Bearer "

  /** parseJwt: the header after "Bearer " when the header has text and starts with that
      exact, case-sensitive prefix; null otherwise. */
  function ParseJwt(header: Option<string>): (jwt: Option<string>)
    ensures jwt.Some? <==> HasText(header) && StartsWith(header.value, "Bearer ")
    ensures jwt.Some? ==> header.value == "Bearer " + jwt.value
  {
    if HasText(header) && StartsWith(header.value, BearerPrefix) then
      assert header.value == header.value[..7] + header.value[7..];
      Some(header.value[7..])
    else
      None
  }

  /** A header of exactly "Bearer " yields the empty token, not null. */
  lemma ParseBareBearer()
    ensures ParseJwt(Some("Bearer ")) == Some("")
  {
    ParseRoundTrip("");
    assert "Bearer " + "" == "Bearer ";
  }

  /** Prefixing any string with "Bearer " and parsing gives the string back. */
  lemma ParseRoundTrip(s: string)
    ensures ParseJwt(Some("Bearer " + s)) == Some(s)
  {
    var h := "Bearer " + s;
    assert h[0] == 'B' && !IsWhitespace(h[0]);
    assert h[..7] == "Bearer ";
  }

  /** The prefix test is case-sensitive: "bearer " is not accepted. */
  lemma ParseIsCaseSensitive(s: string)
    ensures ParseJwt(Some("bearer " + s)) == None
  {
    var h := "bearer " + s;
    assert h[..7][0] == 'b';
  }

  /** The authentication the filter installs for a request, if any: the JWT must be
      present and valid, and its subject must name a stored user. */
  ghost function FilterOutcome(users: map<int, UserRow>, header: Option<string>,
                               validate: string -> bool, subjectOf: string -> string): Option<Authentication>
  {
    var jwt := ParseJwt(header);
    if jwt.Some? && validate(jwt.value) then
      match LoadResult(users, subjectOf(jwt.value))
      case Success(d) => Some(Authentication(UserPrincipal(d), None, d.authorities))
      case Failure(_) => None
    else
      None
  }

  /** An authentication is installed exactly when a token was parsed, it validates, and its
      subject is a stored user; the principal is that user and carries its authorities. */
  lemma FilterOutcomeMeaning(users: map<int, UserRow>, header: Option<string>,
                             validate: string -> bool, subjectOf: string -> string)
    requires UniqueUsernames(users)
    ensures var a := FilterOutcome(users, header, validate, subjectOf);
            a.Some? <==> (&& ParseJwt(header).Some? && validate(ParseJwt(header).value)
                          && UsernameTaken(users, subjectOf(ParseJwt(header).value)))
    ensures var a := FilterOutcome(users, header, validate, subjectOf);
            a.Some? ==> && a.value.principal.UserPrincipal?
                        && a.value.principal.details.username == Some(subjectOf(ParseJwt(header).value))
                        && a.value.authorities == a.value.principal.details.authorities
                        && a.value.credentials.None?
  {
    var jwt := ParseJwt(header);
    if jwt.Some? && validate(jwt.value) {
      LoadResultMeaning(users, subjectOf(jwt.value));
    }
  }

  /** doFilterInternal. The context is written only on success, as its last step, so a
      lookup failure (caught and logged) leaves it as it was; the chain runs exactly
      once on every path. */
  method DoFilterInternal(db: Database, ctx: SecurityContext, chain: FilterChain, header: Option<string>,
                          validate: string -> bool, subjectOf: string -> string)
    requires db.Valid()
    modifies ctx, chain
    ensures chain.calls == old(chain.calls) + 1
    ensures FilterOutcome(db.users, header, validate, subjectOf).Some? ==>
              ctx.authentication == FilterOutcome(db.users, header, validate, subjectOf)
    ensures FilterOutcome(db.users, header, validate, subjectOf).None? ==>
              ctx.authentication == old(ctx.authentication)
  {
    var jwt := ParseJwt(header);
    if jwt.Some? && validate(jwt.value) {
      var username := subjectOf(jwt.value);
      var loaded := LoadUserByUsername(db, username);
      if loaded.Success? {
        var details := loaded.value;
        var authentication := Authentication(UserPrincipal(details), None, details.authorities);
        ctx.SetAuthentication(Some(authentication));
      }
    }
    chain.DoFilter();
  }
}
