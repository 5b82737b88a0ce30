/**
 * Route authentication (src/middleware/require-auth.js): the access token
 * from the auth cookie is verified, and for every role but tutor and admin
 * the single-device session check runs as well. Verifying the signature is
 * the function `verify`, a parameter of the model.
 */
module RequireAuth {
  import opened Common
  import opened SessionValidator

  datatype AuthFailure = NotAuthenticated | BadToken | Session(error: SessionError)

  datatype AuthOutcome = Authorized(payload: Payload) | Rejected(failure: AuthFailure)

  /** The status of a rejection: always 401. */
  function FailureStatus(f: AuthFailure): (s: int)
    ensures s == 401
  {
    match f
    case Session(e) => Status(e)
    case _ => 401
  }

  /** String(payload.role || '').toUpperCase(). */
  function RoleWord(role: Option<string>): string
  {
    if role.Some? then Upper(role.value) else ""
  }

  /** Tutors and admins, in any letter case, skip the single-device check. */
  predicate SkipsSessionCheck(role: Option<string>)
  {
    RoleWord(role) == "TUTOR" || RoleWord(role) == "ADMIN"
  }

  /** requireAuth: the token must be present and verify to a payload with a subject. */
  function RequireAuth(token: string, verify: string -> Option<Payload>): (r: AuthOutcome)
    ensures r == Rejected(NotAuthenticated) <==> token == ""
    ensures r == Rejected(BadToken) <==> token != "" && (verify(token).None? || verify(token).value.sub.None?)
    ensures r.Authorized? ==> verify(token) == Some(r.payload) && r.payload.sub.Some?
  {
    if token == "" then Rejected(NotAuthenticated)
    else
      var payload := verify(token);
      if payload.None? || payload.value.sub.None? then Rejected(BadToken)
      else Authorized(payload.value)
  }

  /** requireAuthAndSession: requireAuth followed, for students and unknown roles, by validateSession. */
  function RequireAuthAndSession(token: string, verify: string -> Option<Payload>,
                                 lastLogins: map<nat, Option<Time>>, failing: bool): (r: AuthOutcome)
    ensures RequireAuth(token, verify).Rejected? ==> r == RequireAuth(token, verify)
    ensures RequireAuth(token, verify).Authorized? && SkipsSessionCheck(RequireAuth(token, verify).payload.role) ==>
      r == RequireAuth(token, verify)
    ensures RequireAuth(token, verify).Authorized? && !SkipsSessionCheck(RequireAuth(token, verify).payload.role) ==>
      match ValidateSession(RequireAuth(token, verify).payload, lastLogins, failing)
      case Some(e) => r == Rejected(Session(e))
      case None => r == RequireAuth(token, verify)
  {
    match RequireAuth(token, verify)
    case Rejected(f) => Rejected(f)
    case Authorized(payload) =>
      if SkipsSessionCheck(payload.role) then Authorized(payload)
      else match ValidateSession(payload, lastLogins, failing)
        case Some(e) => Rejected(Session(e))
        case None => Authorized(payload)
  }

  /**
   * The session check only adds rejections: whatever requireAuthAndSession
   * admits, requireAuth admits with the same payload, and for staff the two
   * agree whatever the stored logins are.
   */
  lemma SessionCheckOnlyNarrows(token: string, verify: string -> Option<Payload>,
                                lastLogins: map<nat, Option<Time>>, failing: bool)
    ensures RequireAuthAndSession(token, verify, lastLogins, failing).Authorized? ==>
      RequireAuthAndSession(token, verify, lastLogins, failing) == RequireAuth(token, verify)
    ensures RequireAuth(token, verify).Authorized? && SkipsSessionCheck(RequireAuth(token, verify).payload.role) ==>
      RequireAuthAndSession(token, verify, lastLogins, failing) == RequireAuth(token, verify)
  {
  }

  /** A lower-case staff role is recognised as well as the stored upper-case one. */
  lemma LowerCaseTutorSkips(role: string)
    requires role == "tutor"
    ensures SkipsSessionCheck(Some(role))
  {
    assert Upper(role) == "TUTOR";
  }
}
