/**
 * Google sign-in for the single-tenant service: `login` records a pending sign-in, `callback`
 * redeems it, finds or creates the user and opens a session. The token exchange with the provider,
 * the clock and the random tokens are inputs.
 */
module GoogleAuth {
  import opened Wrappers
  import opened Decimal
  import opened Values
  import opened Http
  import opened Sessions
  import Store
  import Shape
  import Criteria
  import UserKind
  import GlonkUserKind
  import Auth

  /** The profile the provider returns for the signed-in account. */
  datatype GoogleUserInfo = GoogleUserInfo(id: string, email: string, verifiedEmail: bool, name: string,
                                           givenName: string, familyName: string, picture: string)

  const GuidPrefix: string := "google/"

  /** The user guid a provider account maps to. */
  function GuidOf(info: GoogleUserInfo): string
  {
    GuidPrefix + info.id
  }

  /**
   * `From<GoogleUserInfo> for RequestUser`: no id, the guid `google/<provider id>`, and the
   * provider's name, email and picture.
   */
  function ToRequestUser(info: GoogleUserInfo): (r: UserKind.RequestUser)
    ensures GlonkUserKind.ValidateCreate(r).Ok?
    ensures r.guid == Some(GuidOf(info)) && r.id.None?
    ensures r.name == Some(info.name) && r.email == Some(info.email) && r.picture == Some(info.picture)
  {
    UserKind.RequestUser(None, Some(GuidOf(info)), Some(info.name), Some(info.email), Some(info.picture))
  }

  /** Distinct provider accounts map to distinct guids. */
  lemma GuidInjective(a: GoogleUserInfo, b: GoogleUserInfo)
    ensures GuidOf(a) == GuidOf(b) <==> a.id == b.id
  {
    if GuidOf(a) == GuidOf(b) {
      assert a.id == GuidOf(a)[|GuidPrefix|..];
      assert b.id == GuidOf(b)[|GuidPrefix|..];
    }
  }

  /**
   * `login`: remember the CSRF token with its PKCE verifier and send the browser to the provider;
   * when the lock fails nothing is stored and the browser goes back to `/`.
   */
  function Login(st: AuthState, csrf: string, verifier: string, authUrl: string, lockOk: bool)
    : (r: (AuthState, Response))
    ensures r.0.sessions == st.sessions
    ensures lockOk ==> r.0.pending == st.pending[csrf := verifier] && r.1 == Redirect(authUrl, None)
    ensures !lockOk ==> r.0 == st && r.1 == Redirect("/", None)
  {
    if lockOk then (st.(pending := st.pending[csrf := verifier]), Redirect(authUrl, None))
    else (st, Redirect("/", None))
  }

  /** The criteria `retrieve_or_create_user` looks the guid up with. */
  function GuidCriteria(guid: string): Criteria.Criteria
  {
    UserKind.ToCriteria(UserKind.ByGuid(guid))
  }

  /**
   * `retrieve_or_create_user`: look the guid up; exactly one match is the user, no match creates
   * one, two or more give `None`. A row that does not decode as a user also gives `None`.
   */
  function RetrieveOrCreateUser(users: Store.Table, info: GoogleUserInfo, queryLockOk: bool, createLockOk: bool,
                                nextId: I64): (r: (Store.Table, Option<UserKind.User>))
    ensures var found := Store.GetQueries(users, [GuidCriteria(GuidOf(info))], queryLockOk);
            (|found| >= 2 ==> r == (users, None))
            && (|found| == 1 ==> r == (users, UserKind.FromRow(found[0])))
            && (|found| != 0 ==> r.0 == users)
            && (|found| == 0 ==>
                  var c := Store.Create(GlonkUserKind.Schema, users, UserKind.Fields(ToRequestUser(info)), createLockOk, nextId);
                  r == if c.1.Ok? then (c.0, UserKind.FromRow(c.1.value)) else (users, None))
    ensures r.1.Some? ==> r.1.value.guid == GuidOf(info)
    ensures r.0 == users || exists row :: r.0 == users + [row]
    ensures r.0 != users ==> r.1.Some? && r.1.value.id == nextId && r.1.value.name == info.name
                             && r.1.value.email == info.email && r.1.value.picture == info.picture
                             && r.0 == users + [UserKind.ToRow(r.1.value)]
  {
    var guid := GuidOf(info);
    var found := Store.GetQueries(users, [GuidCriteria(guid)], queryLockOk);
    if |found| == 1 then
      var u := UserKind.FromRow(found[0]);
      assert found[0] in found;
      assert [GuidCriteria(guid)][0] == GuidCriteria(guid);
      assert Store.AllHold(found[0], [GuidCriteria(guid)]);
      assert Criteria.Holds(found[0], GuidCriteria(guid));
      (users, u)
    else if |found| == 0 then
      var created := Store.Create(GlonkUserKind.Schema, users, UserKind.Fields(ToRequestUser(info)), createLockOk, nextId);
      match created.1
      case Err(_) => (users, None)
      case Ok(row) =>
        CreatedRowDecodes(users, info, createLockOk, nextId);
        (created.0, UserKind.FromRow(row))
    else (users, None)
  }

  /** The row created for a new account is the account's user with the engine's id. */
  lemma CreatedRowDecodes(users: Store.Table, info: GoogleUserInfo, createLockOk: bool, nextId: I64)
    requires Store.Create(GlonkUserKind.Schema, users, UserKind.Fields(ToRequestUser(info)), createLockOk, nextId).1.Ok?
    ensures var row := Store.Create(GlonkUserKind.Schema, users, UserKind.Fields(ToRequestUser(info)), createLockOk, nextId).1.value;
            var u := UserKind.User(nextId, GuidOf(info), info.name, info.email, info.picture);
            row == UserKind.ToRow(u) && UserKind.FromRow(row) == Some(u)
  {
    var u := UserKind.User(nextId, GuidOf(info), info.name, info.email, info.picture);
    NewAccountRow(info, nextId);
  }

  /** The insert for a new account writes exactly the row of the account's user. */
  lemma NewAccountRow(info: GoogleUserInfo, nextId: I64)
    ensures Store.NewRow(GlonkUserKind.Schema, UserKind.Fields(ToRequestUser(info)), nextId)
         == UserKind.ToRow(UserKind.User(nextId, GuidOf(info), info.name, info.email, info.picture))
  {
    FieldsAssignment(info);
    AccountRowOrder(info, nextId);
  }

  lemma AccountRowOrder(info: GoogleUserInfo, nextId: I64)
    ensures map["picture" := Text(info.picture), "email" := Text(info.email), "name" := Text(info.name),
                "guid" := Text(GuidOf(info))]["id" := Integer(nextId)]
         == UserKind.ToRow(UserKind.User(nextId, GuidOf(info), info.name, info.email, info.picture))
  {
    var row := map["picture" := Text(info.picture), "email" := Text(info.email), "name" := Text(info.name),
                    "guid" := Text(GuidOf(info))]["id" := Integer(nextId)];
    var u := UserKind.User(nextId, GuidOf(info), info.name, info.email, info.picture);
    assert row.Keys == UserKind.ToRow(u).Keys;
    assert forall c :: c in row ==> row[c] == UserKind.ToRow(u)[c];
  }

  /** The columns a new account's insert writes: the four profile columns and no id. */
  lemma FieldsAssignment(info: GoogleUserInfo)
    ensures Shape.Assignment(UserKind.Fields(ToRequestUser(info)))
         == map["picture" := Text(info.picture), "email" := Text(info.email), "name" := Text(info.name),
                "guid" := Text(GuidOf(info))]
  {
    var fs := UserKind.Fields(ToRequestUser(info));
    var f0, f1, f2 := Shape.Field("id", None), Shape.Field("guid", Some(Text(GuidOf(info)))), Shape.Field("name", Some(Text(info.name)));
    var f3, f4 := Shape.Field("email", Some(Text(info.email))), Shape.Field("picture", Some(Text(info.picture)));
    assert fs == [f0] + ([f1] + ([f2] + ([f3] + ([f4] + []))));
    var m4 := Shape.Assignment([f4] + []);
    var m3 := Shape.Assignment([f3] + ([f4] + []));
    var m2 := Shape.Assignment([f2] + ([f3] + ([f4] + [])));
    var m1 := Shape.Assignment([f1] + ([f2] + ([f3] + ([f4] + []))));
    Shape.AssignmentCons(f4, []);
    assert Shape.Assignment([]) == map[];
    Shape.AssignmentCons(f3, [f4] + []);
    Shape.AssignmentCons(f2, [f3] + ([f4] + []));
    Shape.AssignmentCons(f1, [f2] + ([f3] + ([f4] + [])));
    Shape.AssignmentCons(f0, [f1] + ([f2] + ([f3] + ([f4] + []))));
  }

  // ---- callback ----

  /**
   * What `callback` depends on besides the stored state: whether each lock is taken, the provider's
   * answer to the exchange of (PKCE verifier, code), the engine's next user id, the clock and the
   * fresh session token.
   */
  datatype Environment = Environment(pendingLockOk: bool, exchange: (string, string) -> Option<GoogleUserInfo>,
                                     queryLockOk: bool, createLockOk: bool, nextId: I64, now: Instant,
                                     newToken: string, sessionsLockOk: bool)

  datatype Outcome = Outcome(state: AuthState, users: Store.Table, response: Response)

  /** The session lifetime in nanoseconds. */
  const SessionLifetime: int := SessionMinutes * NanosPerMinute

  /** The cookie a new session is handed out with: path `/`, HttpOnly, ten minutes. */
  function SessionCookieFor(token: string): SetCookie
  {
    SetCookie(SessionCookie, token, "/", SessionMinutes * 60, true)
  }

  /** The query carries the sign-in's `state` and `code`, and the pending sign-ins could be locked. */
  predicate Reached(st: AuthState, params: map<string, string>, env: Environment)
  {
    "state" in params && "code" in params && env.pendingLockOk
  }

  /** The account the provider reports for a pending sign-in, if the exchange succeeds. */
  function Exchanged(st: AuthState, params: map<string, string>, env: Environment): Option<GoogleUserInfo>
  {
    if Reached(st, params, env) && params["state"] in st.pending then
      env.exchange(st.pending[params["state"]], params["code"])
    else None
  }

  /** The lookup-or-create the callback runs for the account the provider reports. */
  function Account(users: Store.Table, info: GoogleUserInfo, env: Environment): (Store.Table, Option<UserKind.User>)
  {
    RetrieveOrCreateUser(users, info, env.queryLockOk, env.createLockOk, env.nextId)
  }

  /**
   * `callback`: a missing `state` or `code`, or a failed lock, refuses before anything changes. The
   * pending entry for `state` is removed before the exchange, so it is gone whatever happens next;
   * an unknown `state`, a failed exchange, no unique user, a failed lock on the sessions or an
   * expiry beyond the representable range all refuse. Otherwise a ten-minute session is opened and
   * the browser is sent to `/` with its cookie.
   */
  function Callback(st: AuthState, users: Store.Table, params: map<string, string>, env: Environment): (o: Outcome)
    ensures !Reached(st, params, env) ==> o == Outcome(st, users, Forbidden)
    ensures Reached(st, params, env) ==> o.state.pending == st.pending - {params["state"]}
    ensures o.response == Forbidden || o.response == Redirect("/", Some(SessionCookieFor(env.newToken)))
    ensures o.response.Redirect? ==>
              Exchanged(st, params, env).Some? && env.newToken in o.state.sessions
              && o.state.sessions == st.sessions[env.newToken := o.state.sessions[env.newToken]]
              && o.state.sessions[env.newToken].user.guid == GuidOf(Exchanged(st, params, env).value)
              && o.state.sessions[env.newToken].expires == env.now + SessionLifetime
    ensures !o.response.Redirect? ==> o.state.sessions == st.sessions
    ensures Exchanged(st, params, env).None? ==> o.users == users && o.response == Forbidden
    ensures Exchanged(st, params, env).Some? ==> o.users == Account(users, Exchanged(st, params, env).value, env).0
    ensures Exchanged(st, params, env).Some? && !env.sessionsLockOk ==> o.response == Forbidden
    ensures o.response.Redirect? <==>
              Exchanged(st, params, env).Some? && Account(users, Exchanged(st, params, env).value, env).1.Some?
              && env.sessionsLockOk && CheckedAdd(env.now, SessionLifetime).Some?
    ensures o.response.Redirect? ==>
              o.state.sessions[env.newToken].user == Account(users, Exchanged(st, params, env).value, env).1.value
  {
    if !Reached(st, params, env) then Outcome(st, users, Forbidden)
    else
      var token := params["state"];
      var consumed := st.(pending := st.pending - {token});
      if token !in st.pending then Outcome(consumed, users, Forbidden)
      else
        match env.exchange(st.pending[token], params["code"])
        case None => Outcome(consumed, users, Forbidden)
        case Some(info) =>
          var (users', user) := Account(users, info, env);
          if user.None? || !env.sessionsLockOk then Outcome(consumed, users', Forbidden)
          else
            match CheckedAdd(env.now, SessionLifetime)
            case None => Outcome(consumed, users', Forbidden)
            case Some(expires) =>
              var session := Session(user.value, expires);
              Outcome(consumed.(sessions := st.sessions[env.newToken := session]), users',
                      Redirect("/", Some(SessionCookieFor(env.newToken))))
  }

  /** A sign-in is redeemed at most once: replaying its `state` is refused and opens no session. */
  lemma RedeemAtMostOnce(st: AuthState, users: Store.Table, params: map<string, string>, env1: Environment,
                         env2: Environment)
    requires Reached(st, params, env1)
    ensures var first := Callback(st, users, params, env1);
            var second := Callback(first.state, first.users, params, env2);
            second.response == Forbidden && second.state.sessions == first.state.sessions
  {
  }

  /** A `login` followed by its callback hands the exchange the verifier `login` stored. */
  lemma LoginThenCallback(st: AuthState, csrf: string, verifier: string, authUrl: string, users: Store.Table,
                          code: string, env: Environment)
    requires env.pendingLockOk
    ensures var afterLogin := Login(st, csrf, verifier, authUrl, true).0;
            var params := map["state" := csrf, "code" := code];
            Exchanged(afterLogin, params, env) == env.exchange(verifier, code)
            && Callback(afterLogin, users, params, env).state.pending == st.pending - {csrf}
  {
  }

  /**
   * A session the callback opens admits its cookie from the moment it is made until ten minutes
   * later, and not from then on.
   */
  lemma SessionWindow(st: AuthState, users: Store.Table, params: map<string, string>, env: Environment,
                      headers: Headers, t: Instant)
    requires Callback(st, users, params, env).response.Redirect?
    requires ValueTrimmed(env.newToken) == env.newToken
    ensures var sessions := Callback(st, users, params, env).state.sessions;
            Auth.Authorize(sessions, map[SessionCookie := env.newToken], headers, t, true).Pass?
            <==> t < env.now + SessionLifetime
  {
  }
}
