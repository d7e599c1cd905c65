/**
 * Sessions and refresh tokens: one Redis register per user with a lifetime, and a session table.
 * Remote services, password checks and JWT verification appear as answers passed to the call; times
 * are seconds.
 */
module AuthSessions {
  import opened Common

  datatype TokenType = JWT | OAUTH | BIND_ID | REFRESH

  datatype Session = Session(userId: string, tokenType: TokenType, expiresAt: nat, revokedAt: Option<nat>)

  datatype Token = Token(value: string, expiresAt: nat)

  datatype State = State(register: map<string, Token>, sessions: map<string, Session>)

  datatype UserRecord = UserRecord(id: string, isActive: bool, email: Option<string>, emailVerified: Option<bool>,
      isGuest: bool)

  datatype AuthError =
    | AccountNotFound | AccountInactive | EmailVerificationRequired | InvalidCredentials | LoginError
    | InvalidRefreshToken | SessionNotFound | GuestFailed

  const SEVEN_DAYS: nat := 7 * 24 * 60 * 60
  const THIRTY_DAYS: nat := 30 * 24 * 60 * 60

  function LiveToken(s: State, userId: string, now: nat): Option<string> {
    if userId in s.register && now < s.register[userId].expiresAt then Some(s.register[userId].value) else None
  }

  /** Store a token and record the session that goes with it. */
  function Issue(s: State, userId: string, token: string, ttl: nat, tokenType: TokenType, sessionId: string,
      now: nat): State {
    State(s.register[userId := Token(token, now + ttl)],
          s.sessions[sessionId := Session(userId, tokenType, now + ttl, None)])
  }

  function RevokeOne(x: Session, userId: string, now: nat): Session {
    if x.userId == userId && x.revokedAt.None? then x.(revokedAt := Some(now)) else x
  }

  /** Revoke every open session of the user and drop the stored token. */
  function Close(s: State, userId: string, now: nat): State {
    State(s.register - {userId}, map k | k in s.sessions :: RevokeOne(s.sessions[k], userId, now))
  }

  datatype Event =
    | Login(user: Option<UserRecord>, passwordOk: bool, backendsOk: bool, rememberMe: bool, token: string,
        sessionId: string, now: nat)
    | Guest(guest: Option<string>, token: string, sessionId: string, now: nat)
    | Convert(registered: Option<string>, token: string, sessionId: string, now: nat)
    | Refresh(presented: string, sub: Option<string>, user: Option<UserRecord>, guestClaim: bool, backendsOk: bool,
              token: string, sessionId: string, now: nat)
    | Logout(userId: string, now: nat)
    | RevokeSession(userId: string, target: string, now: nat)
    | RevokeAll(userId: string, now: nat)

  /** New session ids are new, and the users service answers a lookup by id with that user. */
  ghost predicate Legal(s: State, e: Event) {
    && (e.Login? || e.Guest? || e.Convert? || e.Refresh? ==> e.sessionId !in s.sessions)
    && (e.Refresh? && e.sub.Some? && e.user.Some? ==> e.user.value.id == e.sub.value)
  }

  function LoginCheck(user: Option<UserRecord>, passwordOk: bool, backendsOk: bool): Result<string, AuthError> {
    if user.None? then Err(AccountNotFound)
    else if !user.value.isActive then Err(AccountInactive)
    else if user.value.email.Some? && user.value.email.value != "" && user.value.emailVerified != Some(true)
    then Err(EmailVerificationRequired)
    else if !passwordOk then Err(InvalidCredentials)
    else if !backendsOk then Err(LoginError)
    else Ok(user.value.id)
  }

  predicate IsGuestRefresh(e: Event)
    requires e.Refresh? && e.user.Some?
  {
    e.guestClaim || e.user.value.isGuest
  }

  /** The presented token verifies, is the one stored, and its user may go on. */
  predicate RefreshAccepted(s: State, e: Event)
    requires e.Refresh?
  {
    && e.sub.Some? && LiveToken(s, e.sub.value, e.now) == Some(e.presented) && e.presented != ""
    && e.user.Some? && e.user.value.isActive
    && (IsGuestRefresh(e) || e.backendsOk)
  }

  /** The session a revocation finds: the user's own and still open. */
  predicate Revocable(s: State, userId: string, target: string) {
    target in s.sessions && s.sessions[target].userId == userId && s.sessions[target].revokedAt.None?
  }

  datatype Issued = Issued(userId: string, token: string, ttl: nat)

  /** The token an event stores, if it gets that far. */
  function IssuedBy(s: State, e: Event): Option<Issued> {
    match e
    case Login(user, passwordOk, backendsOk, rememberMe, token, _, _) =>
      (match LoginCheck(user, passwordOk, backendsOk)
       case Ok(u) => Some(Issued(u, token, if rememberMe then THIRTY_DAYS else SEVEN_DAYS))
       case Err(_) => None)
    case Guest(guest, token, _, _) => if guest.Some? then Some(Issued(guest.value, token, THIRTY_DAYS)) else None
    case Convert(registered, token, _, _) =>
      if registered.Some? then Some(Issued(registered.value, token, SEVEN_DAYS)) else None
    case Refresh(_, _, user, _, _, token, _, _) =>
      if RefreshAccepted(s, e)
      then Some(Issued(user.value.id, token, if IsGuestRefresh(e) then THIRTY_DAYS else SEVEN_DAYS)) else None
    case _ => None
  }

  function Step(s: State, e: Event): State {
    match e
    case Logout(u, now) => Close(s, u, now)
    case RevokeAll(u, now) => Close(s, u, now)
    case RevokeSession(u, target, now) =>
      if !Revocable(s, u, target) then s
      else
        var x := s.sessions[target];
        State(if x.tokenType.JWT? || x.tokenType.REFRESH? then s.register - {u} else s.register,
              s.sessions[target := x.(revokedAt := Some(now))])
    case _ =>
      match IssuedBy(s, e)
      case None => s
      case Some(i) => Issue(s, i.userId, i.token, i.ttl, if e.Refresh? then REFRESH else JWT, e.sessionId, e.now)
  }

  // ---- The service ----------------------------------------------------------------------------------

  class AuthService {
    var register: map<string, Token>
    var sessions: map<string, Session>

    ghost function View(): State
      reads this
    {
      State(register, sessions)
    }

    constructor ()
      ensures View() == State(map[], map[])
    {
      register, sessions := map[], map[];
    }

    method StoreTokens(userId: string, token: string, ttl: nat, tokenType: TokenType, sessionId: string, now: nat)
      modifies this
      ensures View() == Issue(old(View()), userId, token, ttl, tokenType, sessionId, now)
    {
      register := register[userId := Token(token, now + ttl)];
      sessions := sessions[sessionId := Session(userId, tokenType, now + ttl, None)];
    }

    method DoLogin(user: Option<UserRecord>, passwordOk: bool, backendsOk: bool, rememberMe: bool,
                   token: string, sessionId: string, now: nat) returns (r: Result<string, AuthError>)
      modifies this
      ensures View() == Step(old(View()), Login(user, passwordOk, backendsOk, rememberMe, token, sessionId, now))
      ensures r == LoginCheck(user, passwordOk, backendsOk)
    {
      if user.None? { return Err(AccountNotFound); }
      var u := user.value;
      if !u.isActive { return Err(AccountInactive); }
      if u.email.Some? && u.email.value != "" {
        if u.emailVerified != Some(true) { return Err(EmailVerificationRequired); }
      }
      if !passwordOk { return Err(InvalidCredentials); }
      if !backendsOk { return Err(LoginError); }
      var refreshTokenExpiry := if rememberMe then THIRTY_DAYS else SEVEN_DAYS;
      StoreTokens(u.id, token, refreshTokenExpiry, JWT, sessionId, now);
      return Ok(u.id);
    }

    method CreateGuestSession(guest: Option<string>, token: string, sessionId: string, now: nat)
      returns (r: Result<string, AuthError>)
      modifies this
      ensures View() == Step(old(View()), Guest(guest, token, sessionId, now))
      ensures r == if guest.Some? then Ok(guest.value) else Err(GuestFailed)
    {
      if guest.None? { return Err(GuestFailed); }
      StoreTokens(guest.value, token, THIRTY_DAYS, JWT, sessionId, now);
      return Ok(guest.value);
    }

    method ConvertGuestToRegistered(registered: Option<string>, token: string, sessionId: string, now: nat)
      returns (r: Result<string, AuthError>)
      modifies this
      ensures View() == Step(old(View()), Convert(registered, token, sessionId, now))
      ensures r == if registered.Some? then Ok(registered.value) else Err(GuestFailed)
    {
      if registered.None? { return Err(GuestFailed); }
      StoreTokens(registered.value, token, SEVEN_DAYS, JWT, sessionId, now);
      return Ok(registered.value);
    }

    method RefreshTokens(refreshToken: string, sub: Option<string>, user: Option<UserRecord>, guestClaim: bool,
                         backendsOk: bool, token: string, sessionId: string, now: nat)
      returns (r: Result<string, AuthError>)
      modifies this
      ensures View() == Step(old(View()),
          Refresh(refreshToken, sub, user, guestClaim, backendsOk, token, sessionId, now))
      ensures var e := Refresh(refreshToken, sub, user, guestClaim, backendsOk, token, sessionId, now);
              r.Ok? <==> RefreshAccepted(old(View()), e)
      ensures r == Ok(token) || r == Err(InvalidRefreshToken)
    {
      if sub.None? { return Err(InvalidRefreshToken); }
      var live := sub.value in register && now < register[sub.value].expiresAt;
      var storedToken := if live then Some(register[sub.value].value) else None;
      if storedToken.None? || storedToken.value == "" || storedToken.value != refreshToken {
        return Err(InvalidRefreshToken);
      }
      if user.None? || !user.value.isActive { return Err(InvalidRefreshToken); }
      var isGuest := guestClaim || user.value.isGuest;
      if !isGuest {
        if !backendsOk { return Err(InvalidRefreshToken); }
      }
      StoreTokens(user.value.id, token, if isGuest then THIRTY_DAYS else SEVEN_DAYS, REFRESH, sessionId, now);
      return Ok(token);
    }

    method DoLogout(userId: string, now: nat)
      modifies this
      ensures View() == Step(old(View()), Logout(userId, now))
    {
      register := register - {userId};
      sessions := map k | k in sessions :: RevokeOne(sessions[k], userId, now);
    }

    method DoRevokeSession(userId: string, sessionId: string, now: nat) returns (r: Result<(), AuthError>)
      modifies this
      ensures View() == Step(old(View()), RevokeSession(userId, sessionId, now))
      ensures r == if Revocable(old(View()), userId, sessionId) then Ok(()) else Err(SessionNotFound)
    {
      if sessionId !in sessions || sessions[sessionId].userId != userId || sessions[sessionId].revokedAt.Some? {
        return Err(SessionNotFound);
      }
      var session := sessions[sessionId];
      sessions := sessions[sessionId := session.(revokedAt := Some(now))];
      if session.tokenType == JWT || session.tokenType == REFRESH {
        register := register - {userId};
      }
      return Ok(());
    }

    method RevokeAllSessions(userId: string, now: nat) returns (sessionsRevoked: nat)
      modifies this
      ensures View() == Step(old(View()), RevokeAll(userId, now))
      ensures sessionsRevoked == |OpenSessions(old(View()), userId)|
    {
      sessionsRevoked := |set k | k in sessions && sessions[k].userId == userId && sessions[k].revokedAt.None?|;
      assert (set k | k in sessions && sessions[k].userId == userId && sessions[k].revokedAt.None?) ==
          OpenSessions(View(), userId);
      sessions := map k | k in sessions :: RevokeOne(sessions[k], userId, now);
      register := register - {userId};
    }
  }

  function OpenSessions(s: State, userId: string): set<string> {
    set k | k in s.sessions && s.sessions[k].userId == userId && s.sessions[k].revokedAt.None?
  }

  // ---- What each event comes to -----------------------------------------------------------------------

  /** No email address, an empty one, or a verified one. */
  predicate EmailSettled(user: UserRecord) {
    user.email == None || user.email == Some("") || user.emailVerified == Some(true)
  }

  /** The first thing wrong with a login, in this order: user, activity, email, password, backends. */
  lemma {:induction false} LoginAnswers(user: Option<UserRecord>, passwordOk: bool, backendsOk: bool)
    ensures var r := LoginCheck(user, passwordOk, backendsOk);
            && (r == Err(AccountNotFound) <==> user == None)
            && (user.Some? ==>
                var u := user.value;
                && (r == Err(AccountInactive) <==> !u.isActive)
                && (r == Err(EmailVerificationRequired) <==> u.isActive && !EmailSettled(u))
                && (r == Err(InvalidCredentials) <==> u.isActive && EmailSettled(u) && !passwordOk)
                && (r == Err(LoginError) <==> u.isActive && EmailSettled(u) && passwordOk && !backendsOk)
                && (r == Ok(u.id) <==> u.isActive && EmailSettled(u) && passwordOk && backendsOk))
  {
  }

  /**
   * A login changes something if and only if the user exists, is active, has no unverified email
   * address, gave the right password, and the backends answer. It then stores the token and a session
   * for 30 days if the user wants to be remembered, and for 7 otherwise.
   */
  lemma {:induction false} LoginStores(s: State, e: Event)
    requires e.Login? && e.sessionId !in s.sessions
    ensures Step(s, e) != s <==>
              && e.user.Some? && e.user.value.isActive && EmailSettled(e.user.value)
              && e.passwordOk && e.backendsOk
    ensures Step(s, e) != s ==>
              var until := e.now + if e.rememberMe then 2592000 else 604800;
              && Step(s, e).register == s.register[e.user.value.id := Token(e.token, until)]
              && Step(s, e).sessions == s.sessions[e.sessionId := Session(e.user.value.id, JWT, until, None)]
  {
    LoginAnswers(e.user, e.passwordOk, e.backendsOk);
    assert e.sessionId in Step(s, e).sessions || Step(s, e) == s;
  }

  /** A guest session lasts 30 days, the session of a converted guest 7; without a user nothing is stored. */
  lemma {:induction false} GuestStores(s: State, e: Event)
    requires e.Guest? || e.Convert?
    ensures var user := if e.Guest? then e.guest else e.registered;
            var until := e.now + if e.Guest? then 2592000 else 604800;
            Step(s, e) ==
              if user == None then s
              else State(s.register[user.value := Token(e.token, until)],
                         s.sessions[e.sessionId := Session(user.value, JWT, until, None)])
  {
  }

  /**
   * A refresh changes something if and only if the token presented verifies for a user, is not empty,
   * is the one stored for that user and has not expired, and the user is there and active, and a
   * guest or the backends answer.
   */
  lemma {:induction false} RefreshStores(s: State, e: Event)
    requires e.Refresh? && Legal(s, e)
    ensures Step(s, e) != s <==>
              && e.sub.Some? && e.presented != ""
              && e.sub.value in s.register && s.register[e.sub.value].value == e.presented
              && e.now < s.register[e.sub.value].expiresAt
              && e.user.Some? && e.user.value.isActive
              && (e.guestClaim || e.user.value.isGuest || e.backendsOk)
    ensures Step(s, e) != s ==>
              var until := e.now + if e.guestClaim || e.user.value.isGuest then 2592000 else 604800;
              && Step(s, e).register == s.register[e.sub.value := Token(e.token, until)]
              && Step(s, e).sessions == s.sessions[e.sessionId := Session(e.sub.value, REFRESH, until, None)]
  {
    assert e.sessionId in Step(s, e).sessions || Step(s, e) == s;
  }

  /** A logout, like the revocation of all sessions, takes the token and stamps every session still open. */
  lemma {:induction false} LogoutRevokes(s: State, e: Event)
    requires e.Logout? || e.RevokeAll?
    ensures Step(s, e).register == map u | u in s.register && u != e.userId :: s.register[u]
    ensures Step(s, e).sessions.Keys == s.sessions.Keys
    ensures forall k :: k in s.sessions ==>
              var before, after := s.sessions[k], Step(s, e).sessions[k];
              && (before.userId == e.userId && before.revokedAt == None ==>
                  after == before.(revokedAt := Some(e.now)))
              && (before.userId != e.userId || before.revokedAt != None ==> after == before)
  {
  }

  /**
   * A revocation changes something if and only if the session exists, is the user's own and still
   * open. It stamps that session alone, and takes the user's token if the session is one for tokens.
   */
  lemma {:induction false} RevokeStamps(s: State, e: Event)
    requires e.RevokeSession?
    ensures Step(s, e) != s <==>
              && e.target in s.sessions && s.sessions[e.target].userId == e.userId
              && s.sessions[e.target].revokedAt == None
    ensures Step(s, e) != s ==>
              var x := s.sessions[e.target];
              && Step(s, e).sessions == s.sessions[e.target := x.(revokedAt := Some(e.now))]
              && (x.tokenType in {JWT, REFRESH} ==>
                  Step(s, e).register == map u | u in s.register && u != e.userId :: s.register[u])
              && (x.tokenType in {OAUTH, BIND_ID} ==> Step(s, e).register == s.register)
  {
    assert Revocable(s, e.userId, e.target) ==> Step(s, e).sessions[e.target].revokedAt == Some(e.now);
  }

  /** The sessions that count as open are the ones the revocation of all sessions stamps. */
  lemma {:induction false} OpenAreStamped(s: State, userId: string, now: nat)
    ensures var after := Step(s, RevokeAll(userId, now)).sessions;
            OpenSessions(s, userId) == set k | k in s.sessions && k in after && after[k] != s.sessions[k]
  {
    LogoutRevokes(s, RevokeAll(userId, now));
  }

  // ---- Runs -----------------------------------------------------------------------------------------

  function At(events: seq<Event>, i: nat): State
    requires i <= |events|
    decreases i
  {
    if i == 0 then State(map[], map[]) else Step(At(events, i - 1), events[i - 1])
  }

  ghost predicate LegalRun(events: seq<Event>) {
    forall i :: 0 <= i < |events| ==> Legal(At(events, i), events[i])
  }

  /** A successful logout, revocation of one session, or revocation of all of them, for this user. */
  predicate Ends(s: State, e: Event, userId: string) {
    match e
    case Logout(u, _) => u == userId
    case RevokeAll(u, _) => u == userId
    case RevokeSession(u, target, _) => u == userId && Revocable(s, u, target)
    case _ => false
  }

  predicate IssuesTo(s: State, e: Event, userId: string) {
    IssuedBy(s, e).Some? && IssuedBy(s, e).value.userId == userId
  }

  /** Event `i` stored this token for the user. */
  ghost predicate Stores(events: seq<Event>, i: nat, userId: string, token: string, expiresAt: nat)
    requires i < |events|
  {
    && IssuesTo(At(events, i), events[i], userId)
    && IssuedBy(At(events, i), events[i]).value.token == token
    && expiresAt == events[i].now + IssuedBy(At(events, i), events[i]).value.ttl
  }

  /** Event `j` neither stored a token for the user nor ended theirs. */
  ghost predicate Quiet(events: seq<Event>, j: nat, userId: string)
    requires j < |events|
  {
    !IssuesTo(At(events, j), events[j], userId) && !Ends(At(events, j), events[j], userId)
  }

  /** Event `i` stored this token for the user, and up to event `n` nothing replaced or ended it. */
  ghost predicate LastIssue(events: seq<Event>, i: nat, n: nat, userId: string, token: string, expiresAt: nat)
    requires n <= |events|
  {
    i < n && Stores(events, i, userId, token, expiresAt) && forall j: nat :: i < j < n ==> Quiet(events, j, userId)
  }

  ghost predicate WasLast(events: seq<Event>, n: nat, userId: string, token: string, expiresAt: nat)
    requires n <= |events|
  {
    exists i: nat :: LastIssue(events, i, n, userId, token, expiresAt)
  }

  /** Sessions are only ever opened for refreshable tokens. */
  ghost predicate OnlyTokenSessions(s: State) {
    forall k :: k in s.sessions ==> s.sessions[k].tokenType.JWT? || s.sessions[k].tokenType.REFRESH?
  }

  lemma {:induction false} TokenSessions(events: seq<Event>, n: nat)
    requires n <= |events|
    ensures OnlyTokenSessions(At(events, n))
    decreases n
  {
    if n > 0 { TokenSessions(events, n - 1); }
  }

  lemma {:induction false} RegisterStep(s: State, e: Event, userId: string)
    requires OnlyTokenSessions(s)
    ensures IssuesTo(s, e, userId) ==>
              && userId in Step(s, e).register
              && Step(s, e).register[userId] == Token(IssuedBy(s, e).value.token, e.now + IssuedBy(s, e).value.ttl)
    ensures Ends(s, e, userId) ==> !IssuesTo(s, e, userId) && userId !in Step(s, e).register
    ensures !IssuesTo(s, e, userId) && !Ends(s, e, userId) ==>
              && (userId in Step(s, e).register <==> userId in s.register)
              && (userId in s.register ==> Step(s, e).register[userId] == s.register[userId])
  {
  }

  lemma {:induction false} LastIssueStep(events: seq<Event>, m: nat, userId: string, token: string, expiresAt: nat)
    requires m < |events|
    ensures WasLast(events, m + 1, userId, token, expiresAt) <==>
              || Stores(events, m, userId, token, expiresAt)
              || (Quiet(events, m, userId) && WasLast(events, m, userId, token, expiresAt))
  {
    if Stores(events, m, userId, token, expiresAt) {
      assert LastIssue(events, m, m + 1, userId, token, expiresAt);
    }
    if Quiet(events, m, userId) && WasLast(events, m, userId, token, expiresAt) {
      var i: nat :| LastIssue(events, i, m, userId, token, expiresAt);
      assert LastIssue(events, i, m + 1, userId, token, expiresAt);
    }
    if WasLast(events, m + 1, userId, token, expiresAt) {
      var i: nat :| LastIssue(events, i, m + 1, userId, token, expiresAt);
      assert i < m ==> Quiet(events, m, userId) && LastIssue(events, i, m, userId, token, expiresAt);
    }
  }

  /** The register of a user holds exactly the last token issued to them that nothing has ended since. */
  lemma {:induction false} RegisterIsLastIssue(events: seq<Event>, n: nat, userId: string, token: string,
      expiresAt: nat)
    requires n <= |events|
    ensures userId in At(events, n).register && At(events, n).register[userId] == Token(token, expiresAt)
            <==> WasLast(events, n, userId, token, expiresAt)
    decreases n
  {
    if n > 0 {
      RegisterIsLastIssue(events, n - 1, userId, token, expiresAt);
      TokenSessions(events, n - 1);
      RegisterStep(At(events, n - 1), events[n - 1], userId);
      LastIssueStep(events, n - 1, userId, token, expiresAt);
    }
  }

  /**
   * In every run, `refreshTokens` accepts a token for its user exactly when that token is the one
   * last issued to the user, has not expired, and no logout or revocation came since, provided the
   * JWT verifies and the user may go on.
   */
  lemma {:induction false} RefreshAcceptsOnlyLastIssue(events: seq<Event>, n: nat)
    requires n < |events| && events[n].Refresh? && events[n].presented != ""
    ensures RefreshAccepted(At(events, n), events[n]) <==>
              && events[n].sub.Some?
              && events[n].user.Some? && events[n].user.value.isActive
              && (IsGuestRefresh(events[n]) || events[n].backendsOk)
              && exists expiresAt: nat ::
                   WasLast(events, n, events[n].sub.value, events[n].presented, expiresAt) && events[n].now < expiresAt
  {
    var e, s := events[n], At(events, n);
    if e.sub.Some? {
      var u := e.sub.value;
      if LiveToken(s, u, e.now) == Some(e.presented) {
        RegisterIsLastIssue(events, n, u, e.presented, s.register[u].expiresAt);
      }
      if expiresAt: nat :| WasLast(events, n, u, e.presented, expiresAt) && e.now < expiresAt {
        RegisterIsLastIssue(events, n, u, e.presented, expiresAt);
      }
    }
  }

  /** In every run, a token that a login was the last to issue came with the right password of an active user. */
  lemma {:induction false} LoginTokenHadPassword(events: seq<Event>, i: nat, n: nat, userId: string, token: string,
      expiresAt: nat)
    requires n <= |events| && LastIssue(events, i, n, userId, token, expiresAt) && events[i].Login?
    ensures events[i].passwordOk && events[i].token == token
    ensures events[i].user.Some? && events[i].user.value.id == userId
    ensures events[i].user.value.isActive && EmailSettled(events[i].user.value)
  {
    LoginAnswers(events[i].user, events[i].passwordOk, events[i].backendsOk);
  }

  lemma {:induction false} SupersededIsNotLast(events: seq<Event>, m: nat, n: nat, userId: string,
      token: string, expiresAt: nat)
    requires m < n <= |events| && IssuesTo(At(events, m), events[m], userId)
    requires forall j :: m <= j < n && IssuesTo(At(events, j), events[j], userId) ==>
               IssuedBy(At(events, j), events[j]).value.token != token
    ensures !WasLast(events, n, userId, token, expiresAt)
  {
    forall i: nat
      ensures !LastIssue(events, i, n, userId, token, expiresAt)
    {
      if i < m { assert !Quiet(events, m, userId); }
    }
  }

  /** Once another token was issued to the user, an old one is rejected for as long as it is not issued again. */
  lemma {:induction false} SupersededIsRejected(events: seq<Event>, m: nat, n: nat)
    requires m < n < |events| && events[n].Refresh? && events[n].sub.Some?
    requires IssuesTo(At(events, m), events[m], events[n].sub.value)
    requires forall j :: m <= j < n && IssuesTo(At(events, j), events[j], events[n].sub.value) ==>
               IssuedBy(At(events, j), events[j]).value.token != events[n].presented
    ensures !RefreshAccepted(At(events, n), events[n])
  {
    if events[n].presented != "" {
      RefreshAcceptsOnlyLastIssue(events, n);
      forall expiresAt: nat
        ensures !WasLast(events, n, events[n].sub.value, events[n].presented, expiresAt)
      {
        SupersededIsNotLast(events, m, n, events[n].sub.value, events[n].presented, expiresAt);
      }
    }
  }

  lemma {:induction false} OpenSessionsStep(s: State, e: Event, userId: string)
    requires Legal(s, e)
    ensures IssuesTo(s, e, userId) ==> e.sessionId in OpenSessions(Step(s, e), userId)
    ensures !Ends(s, e, userId) ==> OpenSessions(s, userId) <= OpenSessions(Step(s, e), userId)
  {
  }

  ghost predicate Backed(s: State, userId: string) {
    userId in s.register ==> OpenSessions(s, userId) != {}
  }

  lemma {:induction false} BackedStep(s: State, e: Event, userId: string)
    requires OnlyTokenSessions(s) && Legal(s, e) && Backed(s, userId)
    ensures Backed(Step(s, e), userId)
  {
    RegisterStep(s, e, userId);
    OpenSessionsStep(s, e, userId);
    if userId in s.register {
      var k :| k in OpenSessions(s, userId);
    }
  }

  /** A stored token implies an open session of the same user. */
  lemma {:induction false} TokenImpliesOpenSession(events: seq<Event>, n: nat, userId: string)
    requires n <= |events| && LegalRun(events)
    ensures Backed(At(events, n), userId)
    decreases n
  {
    if n > 0 {
      TokenImpliesOpenSession(events, n - 1, userId);
      TokenSessions(events, n - 1);
      assert Legal(At(events, n - 1), events[n - 1]);
      BackedStep(At(events, n - 1), events[n - 1], userId);
    }
  }

  /** The user an event is about. */
  function UserOf(s: State, e: Event): Option<string> {
    match e
    case Logout(u, _) => Some(u)
    case RevokeAll(u, _) => Some(u)
    case RevokeSession(u, _, _) => Some(u)
    case _ => if IssuedBy(s, e).Some? then Some(IssuedBy(s, e).value.userId) else None
  }

  /** Nobody else's token or sessions change. */
  lemma {:induction false} OthersUntouched(s: State, e: Event, other: string)
    requires Legal(s, e) && UserOf(s, e) != Some(other)
    ensures other in Step(s, e).register <==> other in s.register
    ensures other in s.register ==> Step(s, e).register[other] == s.register[other]
    ensures forall k :: k in s.sessions && s.sessions[k].userId == other ==>
              k in Step(s, e).sessions && Step(s, e).sessions[k] == s.sessions[k]
    ensures forall k :: k in Step(s, e).sessions && Step(s, e).sessions[k].userId == other ==>
              k in s.sessions && s.sessions[k].userId == other
  {
  }

  /** A failed refresh leaves everything as it was; an accepted one rotates the token for the same user. */
  lemma {:induction false} RefreshRotates(s: State, e: Event)
    requires e.Refresh? && Legal(s, e)
    ensures !RefreshAccepted(s, e) ==> Step(s, e) == s
    ensures RefreshAccepted(s, e) ==>
              && e.sub.value in Step(s, e).register && Step(s, e).register[e.sub.value].value == e.token
              && (e.token != e.presented ==>
                  forall later :: LiveToken(Step(s, e), e.sub.value, later) != Some(e.presented))
  {
  }
}
