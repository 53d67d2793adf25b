/** The parts of the web-security framework the core touches: the authentication object,
    the per-request security context that holds it, and the servlet filter chain. */
module Security {
  import opened Wrappers
  import opened Principals

  /** The principal of an authentication: a UserDetailsImpl, or some other object (for
      instance the bare user name of an unauthenticated token). */
  datatype Principal = UserPrincipal(details: UserDetails) | OtherPrincipal(name: string)

  /** A UsernamePasswordAuthenticationToken: principal, credentials (null once
      authenticated) and granted authority names. */
  datatype Authentication = Authentication(principal: Principal, credentials: Option<string>, authorities: set<string>)

  /** SecurityContextHolder.getContext(): the authentication of the current request, or
      null. */
  class SecurityContext {
    var authentication: Option<Authentication>

    constructor ()
      ensures authentication == None
    {
      authentication := None;
    }

    method SetAuthentication(a: Option<Authentication>)
      modifies this
      ensures authentication == a
    {
      authentication := a;
    }
  }

  /** The rest of the filter chain; only the number of times it is invoked is observed. */
  class FilterChain {
    var calls: nat

    constructor ()
      ensures calls == 0
    {
      calls := 0;
    }

    method DoFilter()
      modifies this
      ensures calls == old(calls) + 1
    {
      calls := calls + 1;
    }
  }
}
