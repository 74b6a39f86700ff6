/**
 * The authentication state both services keep in memory: the pending sign-ins (CSRF token to PKCE
 * verifier) and the sessions (token to user and expiry). Time is nanoseconds since the Unix epoch.
 */
module Sessions {
  import opened Wrappers
  import UserKind

  /** The earliest instant an `OffsetDateTime` can hold: -9999-01-01T00:00:00Z. */
  const MinInstant: int := -377_705_116_800 * 1_000_000_000

  /** The latest instant an `OffsetDateTime` can hold: 9999-12-31T23:59:59.999999999Z. */
  const MaxInstant: int := 253_402_300_800 * 1_000_000_000 - 1

  type Instant = t: int | MinInstant <= t <= MaxInstant

  /** Ten minutes: the lifetime of a session and of its cookie. */
  const SessionMinutes: int := 10
  const NanosPerMinute: int := 60 * 1_000_000_000

  datatype Session = Session(user: UserKind.User, expires: Instant)

  datatype AuthState = AuthState(pending: map<string, string>, sessions: map<string, Session>)

  /** `OffsetDateTime::checked_add`: `None` when the sum leaves the representable range. */
  function CheckedAdd(t: Instant, d: int): (r: Option<Instant>)
    ensures r.Some? <==> MinInstant <= t + d <= MaxInstant
    ensures r.Some? ==> r.value - t == d
  {
    if MinInstant <= t + d <= MaxInstant then Some(t + d) else None
  }

  /** A session admits requests strictly before its expiry. */
  predicate Live(s: Session, now: Instant)
  {
    s.expires > now
  }
}
