/**
 * The authorisation gate in front of the data routes: a request passes only with a `session_id`
 * cookie naming a live session. The multi-tenant service then stamps the session user's id on the
 * request as `Owner-Id`; the single-tenant one forwards the request as it came.
 */
module Auth {
  import opened Wrappers
  import opened Decimal
  import opened Http
  import opened Sessions

  /** The gate's decision: refuse, or pass the request on with these headers. */
  datatype Gate = Deny | Pass(headers: Headers)

  /** The session the request's cookie names, when the lock is taken and the token is known. */
  function CookieSession(sessions: map<string, Session>, jar: Jar, lockOk: bool): (r: Option<Session>)
    ensures r.Some? <==> SessionCookie in jar && lockOk && ValueTrimmed(jar[SessionCookie]) in sessions
    ensures r.Some? ==> r.value == sessions[ValueTrimmed(jar[SessionCookie])]
  {
    if SessionCookie !in jar || !lockOk then None
    else
      var token := ValueTrimmed(jar[SessionCookie]);
      if token in sessions then Some(sessions[token]) else None
  }

  /**
   * The multi-tenant `request_authorizer`: no cookie, a failed lock, an unknown token or an expired
   * session (expiry not after now) deny; otherwise `Owner-Id` is set to the user's id in decimal,
   * replacing whatever the client sent.
   */
  function Authorize(sessions: map<string, Session>, jar: Jar, headers: Headers, now: Instant, lockOk: bool)
    : (g: Gate)
    ensures g.Pass? <==> CookieSession(sessions, jar, lockOk).Some? && Live(CookieSession(sessions, jar, lockOk).value, now)
    ensures g.Pass? ==> OwnerIdHeaderName in g.headers
                        && ParseI64(g.headers[OwnerIdHeaderName]) == Some(CookieSession(sessions, jar, lockOk).value.user.id)
    ensures g.Pass? ==> forall h :: h in headers && h != OwnerIdHeaderName ==> h in g.headers && g.headers[h] == headers[h]
    ensures g.Pass? ==> g.headers.Keys == headers.Keys + {OwnerIdHeaderName}
  {
    match CookieSession(sessions, jar, lockOk)
    case None => Deny
    case Some(s) =>
      if !Live(s, now) then Deny
      else
        var ownerId := IntToString(s.user.id);
        if !HeaderText(ownerId) then Deny
        else
          ParseFormatRoundTrip(s.user.id);
          Pass(headers[OwnerIdHeaderName := ownerId])
  }

  /** The decimal form of an id is always a valid header value, so that refusal never happens. */
  lemma OwnerIdIsHeaderText(id: I64)
    ensures HeaderText(IntToString(id))
  {
  }

  /** The single-tenant `request_authorizer`: the same checks, and the request passes unchanged. */
  function GlonkAuthorize(sessions: map<string, Session>, jar: Jar, headers: Headers, now: Instant, lockOk: bool)
    : (g: Gate)
    ensures g.Pass? <==> CookieSession(sessions, jar, lockOk).Some? && Live(CookieSession(sessions, jar, lockOk).value, now)
    ensures g.Pass? ==> g.headers == headers
  {
    match CookieSession(sessions, jar, lockOk)
    case None => Deny
    case Some(s) => if Live(s, now) then Pass(headers) else Deny
  }

  /** The middleware around a handler: a denial answers 403 and the handler never runs. */
  function Guard(g: Gate, next: Headers -> Response): (r: Response)
    ensures g.Deny? ==> r == Forbidden
    ensures g.Pass? ==> r == next(g.headers)
  {
    match g
    case Deny => Forbidden
    case Pass(h) => next(h)
  }

  /** Both services admit exactly the same requests; only the headers passed on differ. */
  lemma GatesAgree(sessions: map<string, Session>, jar: Jar, headers: Headers, now: Instant, lockOk: bool)
    ensures Authorize(sessions, jar, headers, now, lockOk).Pass? <==> GlonkAuthorize(sessions, jar, headers, now, lockOk).Pass?
  {
  }

  /** A client cannot choose its owner: whatever `Owner-Id` it sends, the one passed on is the session's. */
  lemma OwnerCannotBeForged(sessions: map<string, Session>, jar: Jar, h1: Headers, h2: Headers, now: Instant, lockOk: bool)
    requires Authorize(sessions, jar, h1, now, lockOk).Pass?
    ensures Authorize(sessions, jar, h2, now, lockOk).Pass?
    ensures Authorize(sessions, jar, h1, now, lockOk).headers[OwnerIdHeaderName]
         == Authorize(sessions, jar, h2, now, lockOk).headers[OwnerIdHeaderName]
  {
  }
}
