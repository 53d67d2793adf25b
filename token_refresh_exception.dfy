/** The exceptions the core raises or lets through, and the message and HTTP status of
    TokenRefreshException. */
module Failures {
  import opened Wrappers
  import opened Text

  datatype Failure =
    | TokenRefresh(token: Option<string>, reason: string) // TokenRefreshException(token, message)
    | UsernameNotFound(message: string)                   // UsernameNotFoundException
    | NoSuchElement                                       // Optional.get() on an empty Optional
    | DataIntegrityViolation                              // a unique column would hold a duplicate
    | BadCredentials                                      // the authentication manager rejected the sign-in
    | ClassCast                                           // the principal is not a UserDetailsImpl
    | NullPointer                                         // a null reference was dereferenced

  const Prefix := "Failed for ["
  const Separator := "]: "

  /** TokenRefreshException's message: "Failed for [<token>]: <message>". The token and the
      message can be read back from fixed positions. */
  function TokenRefreshMessage(token: Option<string>, message: string): (m: string)
    ensures |m| == 15 + |Display(token)| + |message|
    ensures m[..12] == Prefix
    ensures m[12..12 + |Display(token)|] == Display(token)
    ensures m[12 + |Display(token)|..15 + |Display(token)|] == Separator
    ensures m[15 + |Display(token)|..] == message
  {
    Prefix + Display(token) + Separator + message
  }

  /** The status a failure is mapped to by its own annotation: only TokenRefreshException
      carries one, 403 FORBIDDEN. The others are mapped by the framework. */
  function DeclaredStatus(f: Failure): (s: Option<int>)
    ensures s.Some? <==> f.TokenRefresh?
    ensures f.TokenRefresh? ==> s == Some(403)
  {
    if f.TokenRefresh? then Some(403) else None
  }

  const ExpiredReason := "Refresh token expired.  Please sign in again."
  const InvalidReason := "Invalid refresh token."

  /** Two refresh failures with the same message name the same token and reason, as long
      as the tokens hold no ']' (a random UUID never does): the message loses nothing. */
  lemma TokenRefreshMessageInjective(t1: string, r1: string, t2: string, r2: string)
    requires TokenRefreshMessage(Some(t1), r1) == TokenRefreshMessage(Some(t2), r2)
    requires forall i :: 0 <= i < |t1| ==> t1[i] != ']'
    requires forall i :: 0 <= i < |t2| ==> t2[i] != ']'
    ensures t1 == t2 && r1 == r2
  {
    if |t1| < |t2| {
      TokenCharAt(t2, r2, |t1|);
      assert false;
    } else if |t2| < |t1| {
      TokenCharAt(t1, r1, |t2|);
      assert false;
    }
  }

  lemma TokenCharAt(t: string, r: string, i: int)
    ensures 0 <= i < |t| ==> TokenRefreshMessage(Some(t), r)[12 + i] == t[i]
  {
  }
}
