/**
 * The session and refresh-token protocol: sign-up and sign-in, session creation behind a
 * per-user cap, refresh with fingerprint binding and a replay cache, revocation, and the
 * cache-only session check.
 *
 * The protocol works on two stores: the user and session tables, and the cache. The
 * operations are first stated as functions from a `State` to a result and a new state;
 * the `AuthService` class at the end performs them step by step on the repository and
 * cache objects and is proved to follow those functions.
 *
 * Inputs that stand for the environment: `now` (unix seconds), the configured token
 * issuer, the new session's Guid, the 32 random bytes of a refresh token, the optional
 * geolocation result (`None` also when the lookup threw), and, for each cache write the
 * source does not await, whether that write was lost.
 */
module AuthService {
  import opened Wrappers
  import opened Text
  import opened Entities
  import Roles
  import Base64
  import opened JwtService
  import opened DomainExceptions
  import opened MemoryCache
  import Sessions = SessionRepository
  import UserService

  const ExpirationDays: int := 60
  /** A session lives 60 days from its creation or its last refresh. */
  const SessionLifetime: int := ExpirationDays * 86400
  const AccessTokenExpirationMinutes: int := 10
  /** Access tokens and session markers live 10 minutes. */
  const AccessTokenLifetime: int := AccessTokenExpirationMinutes * 60
  /** The window, in seconds, both for refreshing early and for replaying a refresh. */
  const TokenReuseWindow: int := 10
  /** The cap `EnsureSessionLimitAsync` is called with (its default). */
  const MaxSessions: int := 5

  /** The claim types of an access token. */
  const IdClaim: string := "id"
  const SessionIdClaim: string := "session_id"
  const UsernameClaim: string := "username"

  datatype State = State(users: seq<User>, nextUserId: int, sessions: seq<Session>, cache: Store)

  /** The randomness and lookups `_createSessionAsync` consumes. */
  datatype Fresh = Fresh(sessionId: Guid, randomBytes: seq<Base64.byte>, location: Option<GeolocationInfo>)

  /** The session marker: the cache holds the session's fingerprint under this key. */
  function SessionKey(id: Guid): string {
    "session:" + GuidToString(id)
  }

  /** The replay entry of a presented refresh token. */
  function ReuseKey(refreshToken: string): string {
    "reused_refresh:" + refreshToken
  }

  /**
   * The tables' keys: unique session ids; unique user ids and usernames; user ids are
   * positive 32-bit values below the next identity value.
   */
  ghost predicate Valid(st: State) {
    && Sessions.UniqueIds(st.sessions)
    && (forall i, j :: 0 <= i < j < |st.users| ==>
          st.users[i].id != st.users[j].id && st.users[i].username != st.users[j].username)
    && (forall u :: u in st.users ==> 1 <= u.id < st.nextUserId && IsInt32(u.id))
    && 1 <= st.nextUserId
  }

  // ---------------------------------------------------------------------------
  // Sign-up and sign-in

  /** `FirstOrDefault(x => x.Username == username)`. */
  function FindByUsername(users: seq<User>, username: string): (r: Option<User>)
    ensures r.Some? ==> r.value in users && r.value.username == username
    ensures r.None? <==> forall u :: u in users ==> u.username != username
  {
    if users == [] then None
    else if users[0].username == username then Some(users[0])
    else FindByUsername(users[1..], username)
  }

  /** `SignUpAsync`: refuses a taken username; otherwise adds the user with the next identity. */
  function SignUp(st: State, username: string, password: string, hash: string -> string): (Result<User, DomainException>, State) {
    if FindByUsername(st.users, username).Some? then (Err(UserAlreadyExists()), st)
    else
      var user := User(st.nextUserId, username, hash(password), Roles.User);
      (Ok(user), st.(users := st.users + [user], nextUserId := st.nextUserId + 1))
  }

  /** `SignInAsync`: the first user with that name, if the password verifies against its hash. */
  function SignIn(st: State, username: string, password: string, verify: (string, string) -> bool): Result<User, DomainException> {
    match FindByUsername(st.users, username)
    case None => Err(InvalidCredentials())
    case Some(user) => if !verify(password, user.passwordHash) then Err(InvalidCredentials()) else Ok(user)
  }

  // ---------------------------------------------------------------------------
  // Sessions and tokens

  /** `_createSessionAsync`: a new row, issued now, expiring after the session lifetime, never refreshed. */
  function NewSession(userId: int, ipAddress: string, userAgent: string, fingerprint: string, drawn: Fresh, now: int): Session {
    Session(
      sessionId := drawn.sessionId,
      refreshToken := RandomTokenText(drawn.randomBytes),
      fingerprint := fingerprint,
      userId := userId,
      userAgent := userAgent,
      ipAddress := ipAddress,
      location := drawn.location,
      issuedAt := now,
      expiresAt := now + SessionLifetime,
      lastRefreshAt := 0)
  }

  /** `_prepareTokenForSession`: an access token naming the user, the session and the username. */
  function PrepareTokenForSession(user: User, session: Session, now: int, issuer: string): TokenText {
    GenerateAccessToken(
      [Claim(IdClaim, IntToString(user.id)), Claim(SessionIdClaim, GuidToString(session.sessionId)),
       Claim(UsernameClaim, user.username)],
      now + AccessTokenLifetime, now, issuer)
  }

  /**
   * `CreateSessionAsync`: cap the user's sessions first, then add the new one, write its
   * marker (unless that write is lost), and hand out an access token with the new row's
   * refresh token.
   */
  function CreateSession(st: State, user: User, ipAddress: string, userAgent: string, fingerprint: string,
                         drawn: Fresh, now: int, issuer: string, markerLost: bool): (TokensDto, State) {
    var capped := Sessions.LimitSessions(st.sessions, user.id, MaxSessions);
    var session := NewSession(user.id, ipAddress, userAgent, fingerprint, drawn, now);
    var cache := if markerLost then st.cache
      else Put(st.cache, SessionKey(session.sessionId), StringValue(fingerprint), Some(AccessTokenLifetime), now);
    (TokensDto(PrepareTokenForSession(user, session, now, issuer), session.refreshToken),
     st.(sessions := capped + [session], cache := cache))
  }

  /** The value of the first claim of a type, as the claims dictionary yields it. */
  function ClaimValue(claims: seq<Claim>, claimType: string): (r: Option<string>)
    ensures r.Some? ==> Claim(claimType, r.value) in claims
  {
    if claims == [] then None
    else if claims[0].claimType == claimType then Some(claims[0].value)
    else ClaimValue(claims[1..], claimType)
  }

  /** The user's session with that id (the filtered `Include` and `FirstOrDefault`). */
  function FindSession(sessions: seq<Session>, userId: int, sessionId: Guid): (r: Option<Session>)
    ensures r.Some? ==> r.value in sessions && r.value.userId == userId && r.value.sessionId == sessionId
    ensures r.None? <==> forall s :: s in sessions ==> !(s.userId == userId && s.sessionId == sessionId)
  {
    if sessions == [] then None
    else if sessions[0].userId == userId && sessions[0].sessionId == sessionId then Some(sessions[0])
    else FindSession(sessions[1..], userId, sessionId)
  }

  /**
   * The guards of `RefreshSessionAsync`, none of which reads the cache: the access token
   * validates with lifetime checks off and is within the window of its expiry; its `id` and
   * `session_id` claims are present and parse; the user and that user's session exist; the
   * fingerprint is the session's; the session has not expired. The user and the session.
   */
  function RefreshTarget(st: State, accessToken: TokenText, fingerprint: string, now: int, issuer: string): Option<(User, Session)> {
    match ValidateTokenWithoutTime(accessToken, TokenReuseWindow, now, issuer)
    case None => None
    case Some(jwt) =>
      var idValue := ClaimValue(jwt.claims, IdClaim);
      var sessionIdValue := ClaimValue(jwt.claims, SessionIdClaim);
      if idValue.None? || sessionIdValue.None? then None
      else
        var userId := ParseInt32(idValue.value);
        var sessionId := ParseGuid(sessionIdValue.value);
        if userId.None? || sessionId.None? then None
        else
          match UserService.FindUser(st.users, userId.value)
          case None => None
          case Some(user) =>
            match FindSession(st.sessions, user.id, sessionId.value)
            case None => None
            case Some(session) =>
              if session.fingerprint != fingerprint || session.expiresAt <= now then None
              else Some((user, session))
  }

  /** The replacement row of a rotation: a new row that keeps the session's id and issue time. */
  function Rotated(user: User, session: Session, ipAddress: string, userAgent: string, fingerprint: string,
                   drawn: Fresh, now: int): Session {
    NewSession(user.id, ipAddress, userAgent, fingerprint, drawn, now)
      .(issuedAt := session.issuedAt, sessionId := session.sessionId, lastRefreshAt := now)
  }

  /** The token pair a refresh of `refreshToken` handed out, while its replay entry lives. */
  function CachedPair(cache: Store, refreshToken: string, now: int): Option<TokensDto> {
    match Lookup(cache, ReuseKey(refreshToken), now)
    case Some(TokenPair(tokens)) => Some(tokens)
    case _ => None
  }

  /**
   * The refresh with the handed-out refresh token chosen by `handNew`: the presented one
   * (as the source does) or the newly stored one.
   */
  function RefreshWith(st: State, accessToken: TokenText, refreshToken: string, ipAddress: string, userAgent: string,
                       fingerprint: string, drawn: Fresh, now: int, issuer: string,
                       markerLost: bool, reuseLost: bool, handNew: bool): (Result<TokensDto, DomainException>, State) {
    match RefreshTarget(st, accessToken, fingerprint, now, issuer)
    case None => (Err(InvalidAuthToken()), st)
    case Some((user, session)) =>
      match CachedPair(st.cache, refreshToken, now)
      case Some(cached) => (Ok(cached), st)
      case None =>
        if session.refreshToken != refreshToken then (Err(InvalidAuthToken()), st)
        else
          var (tokens, after) := Rotate(st, user, session, refreshToken, ipAddress, userAgent, fingerprint, drawn, now, issuer,
                                        markerLost, reuseLost, handNew);
          (Ok(tokens), after)
  }

  /**
   * The rotation step of a refresh: the row is replaced by a new one keeping the session's
   * id and issue time, its marker is written, the pair is built, and the replay entry of
   * the presented refresh token is written.
   */
  function Rotate(st: State, user: User, session: Session, refreshToken: string, ipAddress: string, userAgent: string,
                  fingerprint: string, drawn: Fresh, now: int, issuer: string,
                  markerLost: bool, reuseLost: bool, handNew: bool): (TokensDto, State) {
    var updated := Rotated(user, session, ipAddress, userAgent, fingerprint, drawn, now);
    var marked := if markerLost then st.cache
      else Put(st.cache, SessionKey(updated.sessionId), StringValue(updated.fingerprint), Some(AccessTokenLifetime), now);
    var tokens := TokensDto(PrepareTokenForSession(user, updated, now, issuer),
                            if handNew then updated.refreshToken else session.refreshToken);
    var cache := if reuseLost then marked
      else Put(marked, ReuseKey(refreshToken), TokenPair(tokens), Some(TokenReuseWindow), now);
    (tokens, st.(sessions := Sessions.Replace(st.sessions, updated), cache := cache))
  }

  /** `RefreshSessionAsync` as written: the pair handed out carries the presented refresh token. */
  function Refresh(st: State, accessToken: TokenText, refreshToken: string, ipAddress: string, userAgent: string,
                   fingerprint: string, drawn: Fresh, now: int, issuer: string,
                   markerLost: bool, reuseLost: bool): (Result<TokensDto, DomainException>, State) {
    RefreshWith(st, accessToken, refreshToken, ipAddress, userAgent, fingerprint, drawn, now, issuer, markerLost, reuseLost, false)
  }

  /** The refresh as evidently intended: the pair handed out carries the newly stored refresh token. */
  function RefreshCorrected(st: State, accessToken: TokenText, refreshToken: string, ipAddress: string, userAgent: string,
                            fingerprint: string, drawn: Fresh, now: int, issuer: string,
                            markerLost: bool, reuseLost: bool): (Result<TokensDto, DomainException>, State) {
    RefreshWith(st, accessToken, refreshToken, ipAddress, userAgent, fingerprint, drawn, now, issuer, markerLost, reuseLost, true)
  }

  // ---------------------------------------------------------------------------
  // Revocation and queries

  /** The table without the owner's rows. */
  function WithoutUser(sessions: seq<Session>, ownerId: int): seq<Session> {
    if sessions == [] then []
    else if sessions[0].userId == ownerId then WithoutUser(sessions[1..], ownerId)
    else [sessions[0]] + WithoutUser(sessions[1..], ownerId)
  }

  /** The cache after removing the marker of each id in turn; a removal whose key is in `lost` is lost. */
  function RemoveMarkers(cache: Store, ids: seq<Guid>, lost: set<string>): Store
    decreases |ids|
  {
    if ids == [] then cache
    else RemoveMarkers(if SessionKey(ids[0]) in lost then cache else cache - {SessionKey(ids[0])}, ids[1..], lost)
  }

  /** `RevokeAllSessions`: drop the marker of each of the owner's sessions, delete its rows, return their number. */
  function RevokeAll(st: State, ownerId: int, lost: set<string>): (int, State) {
    var owned := Sessions.UserSessions(st.sessions, ownerId);
    (|owned|, st.(sessions := WithoutUser(st.sessions, ownerId), cache := RemoveMarkers(st.cache, Sessions.Ids(owned), lost)))
  }

  /** The table without rows matching both the session id and the owner. */
  function WithoutSession(sessions: seq<Session>, sessionId: Guid, ownerId: int): seq<Session> {
    if sessions == [] then []
    else if sessions[0].sessionId == sessionId && sessions[0].userId == ownerId then WithoutSession(sessions[1..], sessionId, ownerId)
    else [sessions[0]] + WithoutSession(sessions[1..], sessionId, ownerId)
  }

  /**
   * `RevokeSession`: delete the rows matching both the id and the owner, and remove the
   * marker of that id in any case; true when a row was deleted.
   */
  function Revoke(st: State, sessionId: Guid, ownerId: int): (bool, State) {
    var remaining := WithoutSession(st.sessions, sessionId, ownerId);
    (|remaining| < |st.sessions|, st.(sessions := remaining, cache := st.cache - {SessionKey(sessionId)}))
  }

  /** `GetSessions`: the owner's sessions, most recently issued first. */
  function SessionsOf(st: State, ownerId: int): seq<Session> {
    Sessions.SortDesc(Sessions.ByIssuedAt, Sessions.UserSessions(st.sessions, ownerId))
  }

  /** `IsSessionValid`: the marker of the session holds exactly this fingerprint. */
  function MarkerConfirms(cache: Store, sessionId: Guid, fingerprint: string, now: int): bool {
    Lookup(cache, SessionKey(sessionId), now) == Some(StringValue(fingerprint))
  }

  // ---------------------------------------------------------------------------
  // Keys

  /**
   * The cache keys of the protocol never collide: markers and replay entries live in
   * different namespaces, neither meets the user cache, and distinct sessions have
   * distinct markers.
   */
  lemma KeysDistinct(a: Guid, b: Guid, refreshToken: string, userId: int)
    ensures SessionKey(a) != ReuseKey(refreshToken)
    ensures SessionKey(a) != UserService.UserKey(userId) && ReuseKey(refreshToken) != UserService.UserKey(userId)
    ensures SessionKey(a) == SessionKey(b) ==> a == b
  {
    assert SessionKey(a)[0] == 's' && ReuseKey(refreshToken)[0] == 'r' && UserService.UserKey(userId)[0] == 'u';
    if SessionKey(a) == SessionKey(b) {
      assert GuidToString(a) == SessionKey(a)[8..] == SessionKey(b)[8..] == GuidToString(b);
      GuidRoundTrip(a);
      GuidRoundTrip(b);
    }
  }

  // ---------------------------------------------------------------------------
  // Lookups in tables with unique keys

  lemma {:induction false} FindByUsernameUnique(users: seq<User>, u: User)
    requires forall i, j :: 0 <= i < j < |users| ==> users[i].username != users[j].username
    requires u in users
    ensures FindByUsername(users, u.username) == Some(u)
    decreases |users|
  {
    if users[0] != u {
      var k :| 0 <= k < |users| && users[k] == u;
      assert users[1..][k - 1] == u;
      FindByUsernameUnique(users[1..], u);
    }
  }

  lemma {:induction false} FindByUsernameAppend(users: seq<User>, u: User)
    requires forall x :: x in users ==> x.username != u.username
    ensures FindByUsername(users + [u], u.username) == Some(u)
    decreases |users|
  {
    if users == [] {
      assert users + [u] == [u];
    } else {
      assert (users + [u])[1..] == users[1..] + [u];
      FindByUsernameAppend(users[1..], u);
    }
  }

  lemma {:induction false} FindUserUnique(users: seq<User>, u: User)
    requires forall i, j :: 0 <= i < j < |users| ==> users[i].id != users[j].id
    requires u in users
    ensures UserService.FindUser(users, u.id) == Some(u)
    decreases |users|
  {
    if users[0] != u {
      var k :| 0 <= k < |users| && users[k] == u;
      assert users[1..][k - 1] == u;
      FindUserUnique(users[1..], u);
    }
  }

  lemma {:induction false} FindSessionUnique(sessions: seq<Session>, s: Session)
    requires Sessions.UniqueIds(sessions) && s in sessions
    ensures FindSession(sessions, s.userId, s.sessionId) == Some(s)
    decreases |sessions|
  {
    if sessions[0] != s {
      Sessions.UniqueTail(sessions);
      assert s in sessions[1..];
      Sessions.IdSetMember(sessions[1..], s);
      FindSessionUnique(sessions[1..], s);
    }
  }

  lemma UniqueSnoc(rows: seq<Session>, x: Session)
    requires Sessions.UniqueIds(rows) && x.sessionId !in Sessions.IdSet(rows)
    ensures Sessions.UniqueIds(rows + [x])
  {
    var r := rows + [x];
    forall i, j | 0 <= i < j < |r| ensures r[i].sessionId != r[j].sessionId {
      if j == |rows| {
        Sessions.IdSetHas(rows, i);
      }
    }
  }

  lemma {:induction false} UserSessionsSnoc(rows: seq<Session>, x: Session, userId: int)
    ensures Sessions.UserSessions(rows + [x], userId) ==
      Sessions.UserSessions(rows, userId) + if x.userId == userId then [x] else []
    decreases |rows|
  {
    if rows == [] {
      assert rows + [x] == [x] && [x][1..] == [];
    } else {
      assert (rows + [x])[0] == rows[0] && (rows + [x])[1..] == rows[1..] + [x];
      UserSessionsSnoc(rows[1..], x, userId);
    }
  }

  // ---------------------------------------------------------------------------
  // Sign-up and sign-in

  /**
   * Sign-up refuses exactly a taken username, with the 409 exception, and then changes
   * nothing; otherwise it appends one user carrying the name, the hash of the password,
   * the ordinary role and an identity no user had, and the tables keep their keys.
   */
  lemma SignUpSpec(st: State, username: string, password: string, hash: string -> string)
    requires Valid(st) && st.nextUserId <= Int32Max
    ensures var (r, after) := SignUp(st, username, password, hash);
      && (r.Err? <==> exists u :: u in st.users && u.username == username)
      && (r.Err? ==> r.error == UserAlreadyExists() && after == st)
      && (r.Ok? ==>
            && r.value.username == username && r.value.passwordHash == hash(password)
            && r.value.role == Roles.User
            && (forall u :: u in st.users ==> u.id != r.value.id)
            && after.users == st.users + [r.value]
            && after.sessions == st.sessions && after.cache == st.cache)
      && Valid(after)
  {
    var (r, after) := SignUp(st, username, password, hash);
    if r.Ok? {
      var us := after.users;
      forall i, j | 0 <= i < j < |us| ensures us[i].id != us[j].id && us[i].username != us[j].username {
        if j == |st.users| {
          assert us[i] in st.users;
        }
      }
    }
  }

  /**
   * Sign-in succeeds with exactly the user of that name whose stored hash the password
   * verifies against; every failure is the same 401 exception, whether the name is
   * unknown or the password wrong.
   */
  lemma SignInSpec(st: State, username: string, password: string, verify: (string, string) -> bool, u: User)
    requires Valid(st)
    ensures var r := SignIn(st, username, password, verify);
      && (r.Err? ==> r.error == InvalidCredentials())
      && (r == Ok(u) <==> u in st.users && u.username == username && verify(password, u.passwordHash))
  {
    if u in st.users && u.username == username {
      FindByUsernameUnique(st.users, u);
    }
  }

  /**
   * A user who has just signed up can sign in with the same password (given that a
   * password verifies against its own hash), and signing up the same name again fails.
   */
  lemma SignUpThenSignIn(st: State, username: string, password: string, otherPassword: string,
                         hash: string -> string, verify: (string, string) -> bool)
    requires verify(password, hash(password))
    requires SignUp(st, username, password, hash).0.Ok?
    ensures var (r, after) := SignUp(st, username, password, hash);
      && SignIn(after, username, password, verify) == Ok(r.value)
      && SignUp(after, username, otherPassword, hash) == (Err(UserAlreadyExists()), after)
  {
    var (r, after) := SignUp(st, username, password, hash);
    FindByUsernameAppend(st.users, r.value);
  }

  // ---------------------------------------------------------------------------
  // Sessions and access tokens

  /**
   * An access token issued for a session: full validation accepts it from its issuing
   * time until ten minutes later, and the refresh validation accepts it from ten seconds
   * before its expiry on.
   */
  lemma AccessTokenWindow(user: User, session: Session, now: int, issuer: string, at: int)
    ensures var t := PrepareTokenForSession(user, session, now, issuer);
      && t.Compact? && t.jwt.issuer == issuer && t.jwt.validTo == now + AccessTokenLifetime
      && (ValidateToken(t, at, issuer).Ok? <==> now <= at <= now + AccessTokenLifetime)
      && (ValidateTokenWithoutTime(t, TokenReuseWindow, at, issuer).Some? <==>
            at >= now + AccessTokenLifetime - TokenReuseWindow)
  {
    var t := PrepareTokenForSession(user, session, now, issuer);
    IssueValidateRoundTrip(t.jwt.claims, now + AccessTokenLifetime, now, issuer, at);
    WindowRule(t, TokenReuseWindow, at, issuer);
  }

  /** The claims of an access token read back as the user's id, the session's id and the username. */
  lemma AccessTokenClaims(user: User, session: Session, now: int, issuer: string)
    requires IsInt32(user.id)
    ensures var t := PrepareTokenForSession(user, session, now, issuer);
      && t.Compact? && t.jwt.algorithm == Algorithm && t.jwt.signedWithKey
      && ClaimValue(t.jwt.claims, IdClaim) == Some(IntToString(user.id))
      && ParseInt32(IntToString(user.id)) == Some(user.id)
      && ClaimValue(t.jwt.claims, SessionIdClaim) == Some(GuidToString(session.sessionId))
      && ParseGuid(GuidToString(session.sessionId)) == Some(session.sessionId)
      && ClaimValue(t.jwt.claims, UsernameClaim) == Some(user.username)
  {
    ThreeClaims(IntToString(user.id), GuidToString(session.sessionId), user.username);
    IntRoundTrip(user.id);
    GuidRoundTrip(session.sessionId);
  }

  lemma ThreeClaims(id: string, sessionId: string, username: string)
    ensures var claims := [Claim(IdClaim, id), Claim(SessionIdClaim, sessionId), Claim(UsernameClaim, username)];
      && ClaimValue(claims, IdClaim) == Some(id)
      && ClaimValue(claims, SessionIdClaim) == Some(sessionId)
      && ClaimValue(claims, UsernameClaim) == Some(username)
  {
    var claims := [Claim(IdClaim, id), Claim(SessionIdClaim, sessionId), Claim(UsernameClaim, username)];
    assert claims[1..] == [Claim(SessionIdClaim, sessionId), Claim(UsernameClaim, username)];
    assert claims[1..][1..] == [Claim(UsernameClaim, username)];
    assert SessionIdClaim[0] != IdClaim[0] && UsernameClaim[0] != IdClaim[0] && UsernameClaim[0] != SessionIdClaim[0];
    assert ClaimValue(claims[1..][1..], UsernameClaim) == Some(username);
    assert ClaimValue(claims[1..], UsernameClaim) == Some(username);
  }

  /**
   * Creating a session caps the user's earlier sessions at five (dropping those expiring
   * first) and adds one, so the user ends with at most six; other users' sessions are
   * untouched; the new row is issued now, expires in 60 days, was never refreshed and
   * carries the fingerprint and the refresh token handed out; unless the marker write was
   * lost the session passes the cache check for ten minutes; the access token is accepted
   * for the same ten minutes.
   */
  lemma CreateSessionSpec(st: State, user: User, ipAddress: string, userAgent: string, fingerprint: string,
                          drawn: Fresh, now: int, issuer: string, markerLost: bool)
    requires Valid(st) && user in st.users && drawn.sessionId !in Sessions.IdSet(st.sessions)
    ensures var (tokens, after) := CreateSession(st, user, ipAddress, userAgent, fingerprint, drawn, now, issuer, markerLost);
      var n := |Sessions.UserSessions(st.sessions, user.id)|;
      && Valid(after) && after.users == st.users
      && |Sessions.UserSessions(after.sessions, user.id)| == (if n <= MaxSessions then n else MaxSessions) + 1
      && (forall other :: other != user.id ==>
            Sessions.UserSessions(after.sessions, other) == Sessions.UserSessions(st.sessions, other))
      && |after.sessions| > 0
      && var s := after.sessions[|after.sessions| - 1];
      && s.sessionId == drawn.sessionId && s.userId == user.id && s.fingerprint == fingerprint
      && s.refreshToken == tokens.refreshToken && s.issuedAt == now && s.expiresAt == now + SessionLifetime
      && s.lastRefreshAt == 0
      && (!markerLost ==> forall at :: now <= at < now + AccessTokenLifetime ==> MarkerConfirms(after.cache, drawn.sessionId, fingerprint, at))
      && (forall at :: ValidateToken(tokens.accessToken, at, issuer).Ok? <==> now <= at <= now + AccessTokenLifetime)
  {
    var (tokens, after) := CreateSession(st, user, ipAddress, userAgent, fingerprint, drawn, now, issuer, markerLost);
    var capped := Sessions.LimitSessions(st.sessions, user.id, MaxSessions);
    var session := NewSession(user.id, ipAddress, userAgent, fingerprint, drawn, now);
    Sessions.LimitKeepsUnique(st.sessions, user.id, MaxSessions);
    Sessions.LimitDropsEarliest(st.sessions, user.id, MaxSessions);
    Sessions.NotInFiltered(st.sessions, capped, drawn.sessionId);
    UniqueSnoc(capped, session);
    Sessions.LimitKeepsAtMost(st.sessions, user.id, MaxSessions);
    UserSessionsSnoc(capped, session, user.id);
    forall other | other != user.id
      ensures Sessions.UserSessions(after.sessions, other) == Sessions.UserSessions(st.sessions, other)
    {
      Sessions.LimitOthersUntouched(st.sessions, user.id, MaxSessions, other);
      UserSessionsSnoc(capped, session, other);
    }
    if !markerLost {
      forall at | now <= at < now + AccessTokenLifetime ensures MarkerConfirms(after.cache, drawn.sessionId, fingerprint, at) {
        KeysDistinct(drawn.sessionId, drawn.sessionId, "", 0);
        ReadAfterWrite(st.cache, SessionKey(drawn.sessionId), StringValue(fingerprint), Some(AccessTokenLifetime), now, at, ReuseKey(""));
      }
    }
    forall at ensures ValidateToken(tokens.accessToken, at, issuer).Ok? <==> now <= at <= now + AccessTokenLifetime {
      AccessTokenWindow(user, session, now, issuer, at);
    }
  }

  // ---------------------------------------------------------------------------
  // Refresh

  /** What the guards of a refresh check, stated directly on the token, the tables and the fingerprint. */
  ghost predicate TargetHolds(st: State, accessToken: TokenText, fingerprint: string, now: int, issuer: string,
                              user: User, session: Session) {
    && accessToken.Compact?
    && accessToken.jwt.algorithm == Algorithm && accessToken.jwt.signedWithKey && accessToken.jwt.issuer == issuer
    && accessToken.jwt.validTo <= now + TokenReuseWindow
    && ClaimValue(accessToken.jwt.claims, IdClaim).Some?
    && ParseInt32(ClaimValue(accessToken.jwt.claims, IdClaim).value) == Some(user.id)
    && ClaimValue(accessToken.jwt.claims, SessionIdClaim).Some?
    && ParseGuid(ClaimValue(accessToken.jwt.claims, SessionIdClaim).value) == Some(session.sessionId)
    && user in st.users && session in st.sessions && session.userId == user.id
    && session.fingerprint == fingerprint && now < session.expiresAt
  }

  /**
   * The guards pass with a user and a session exactly when the access token is a token of
   * this service close enough to its expiry (expired ones included), its claims name the
   * user's id and the session's id, the session is the user's, bound to this fingerprint,
   * and not expired.
   */
  lemma RefreshTargetExactly(st: State, accessToken: TokenText, fingerprint: string, now: int, issuer: string,
                             user: User, session: Session)
    requires Valid(st)
    ensures RefreshTarget(st, accessToken, fingerprint, now, issuer) == Some((user, session)) <==>
      TargetHolds(st, accessToken, fingerprint, now, issuer, user, session)
  {
    if TargetHolds(st, accessToken, fingerprint, now, issuer, user, session) {
      FindUserUnique(st.users, user);
      FindSessionUnique(st.sessions, session);
      TargetFound(st, accessToken, fingerprint, now, issuer, user, session);
    }
    if RefreshTarget(st, accessToken, fingerprint, now, issuer) == Some((user, session)) {
      FoundTargetHolds(st, accessToken, fingerprint, now, issuer, user, session);
    }
  }

  /** The guards find every target that meets them once the lookups find its user and session. */
  lemma TargetFound(st: State, accessToken: TokenText, fingerprint: string, now: int, issuer: string,
                    user: User, session: Session)
    requires TargetHolds(st, accessToken, fingerprint, now, issuer, user, session)
    requires UserService.FindUser(st.users, user.id) == Some(user)
    requires FindSession(st.sessions, user.id, session.sessionId) == Some(session)
    ensures RefreshTarget(st, accessToken, fingerprint, now, issuer) == Some((user, session))
  {
    WindowRule(accessToken, TokenReuseWindow, now, issuer);
  }

  /** A target the guards find meets them. */
  lemma FoundTargetHolds(st: State, accessToken: TokenText, fingerprint: string, now: int, issuer: string,
                         user: User, session: Session)
    requires RefreshTarget(st, accessToken, fingerprint, now, issuer) == Some((user, session))
    ensures TargetHolds(st, accessToken, fingerprint, now, issuer, user, session)
  {
    WindowRule(accessToken, TokenReuseWindow, now, issuer);
  }

  /**
   * Every refresh either fails with the 401 exception and changes nothing, replays the
   * pair handed out for the same refresh token within the last ten seconds and changes
   * nothing, or rotates: a failure happens exactly when a guard fails, or when there is no
   * replay entry and the presented refresh token is not the session's.
   */
  lemma RefreshOutcomes(st: State, accessToken: TokenText, refreshToken: string, ipAddress: string, userAgent: string,
                        fingerprint: string, drawn: Fresh, now: int, issuer: string,
                        markerLost: bool, reuseLost: bool, handNew: bool)
    ensures var (r, after) := RefreshWith(st, accessToken, refreshToken, ipAddress, userAgent, fingerprint, drawn, now, issuer,
                                          markerLost, reuseLost, handNew);
      var target := RefreshTarget(st, accessToken, fingerprint, now, issuer);
      var cached := CachedPair(st.cache, refreshToken, now);
      && (r.Err? <==> target.None? || (cached.None? && target.value.1.refreshToken != refreshToken))
      && (r.Err? ==> r.error == InvalidAuthToken() && after == st)
      && (target.Some? && cached.Some? ==> r == Ok(cached.value) && after == st)
      && (after != st ==> r.Ok? && target.Some? && cached.None?)
  {
  }

  /**
   * A rotation keeps the session's id, owner and issue time and replaces everything else:
   * a new random refresh token, the presenting client's fingerprint, address and agent,
   * a new 60-day expiry, and the refresh time now; every other row and every user is
   * untouched and the tables keep their keys. The new access token is accepted for ten
   * minutes, the marker (unless lost) confirms the session for ten minutes, and the replay
   * entry (unless lost) hands the same pair out for ten seconds. The pair carries the
   * presented refresh token as written, the stored one when corrected.
   */
  lemma RotateSpec(st: State, user: User, session: Session, refreshToken: string, ipAddress: string, userAgent: string,
                   fingerprint: string, drawn: Fresh, now: int, issuer: string,
                   markerLost: bool, reuseLost: bool, handNew: bool)
    requires Valid(st)
    ensures var (tokens, after) := Rotate(st, user, session, refreshToken, ipAddress, userAgent, fingerprint, drawn, now, issuer,
                                          markerLost, reuseLost, handNew);
      && Valid(after) && after.users == st.users && after.nextUserId == st.nextUserId
      && |after.sessions| == |st.sessions|
      && (forall i :: 0 <= i < |st.sessions| ==> after.sessions[i].sessionId == st.sessions[i].sessionId)
      && (forall i :: 0 <= i < |st.sessions| && st.sessions[i].sessionId != session.sessionId ==>
            after.sessions[i] == st.sessions[i])
      && (forall i :: 0 <= i < |st.sessions| && st.sessions[i].sessionId == session.sessionId ==>
            var s := after.sessions[i];
            && s.userId == user.id && s.issuedAt == session.issuedAt
            && s.refreshToken == RandomTokenText(drawn.randomBytes) && s.fingerprint == fingerprint
            && s.ipAddress == ipAddress && s.userAgent == userAgent && s.location == drawn.location
            && s.expiresAt == now + SessionLifetime && s.lastRefreshAt == now)
      && tokens.refreshToken == (if handNew then RandomTokenText(drawn.randomBytes) else session.refreshToken)
      && (forall at :: ValidateToken(tokens.accessToken, at, issuer).Ok? <==> now <= at <= now + AccessTokenLifetime)
      && (!markerLost ==> forall at :: now <= at < now + AccessTokenLifetime ==>
            MarkerConfirms(after.cache, session.sessionId, fingerprint, at))
      && (!reuseLost ==> forall at :: now <= at < now + TokenReuseWindow ==>
            CachedPair(after.cache, refreshToken, at) == Some(tokens))
      && (reuseLost ==> forall at :: at >= now ==> CachedPair(after.cache, refreshToken, at) == CachedPair(st.cache, refreshToken, at))
      && (!reuseLost ==> forall at :: at >= now + TokenReuseWindow ==> CachedPair(after.cache, refreshToken, at).None?)
  {
    RotateRows(st, user, session, refreshToken, ipAddress, userAgent, fingerprint, drawn, now, issuer, markerLost, reuseLost, handNew);
    RotateCache(st, user, session, refreshToken, ipAddress, userAgent, fingerprint, drawn, now, issuer, markerLost, reuseLost, handNew);
  }

  /** The rows and the access token of a rotation. */
  lemma RotateRows(st: State, user: User, session: Session, refreshToken: string, ipAddress: string, userAgent: string,
                   fingerprint: string, drawn: Fresh, now: int, issuer: string,
                   markerLost: bool, reuseLost: bool, handNew: bool)
    requires Valid(st)
    ensures var (tokens, after) := Rotate(st, user, session, refreshToken, ipAddress, userAgent, fingerprint, drawn, now, issuer,
                                          markerLost, reuseLost, handNew);
      && Valid(after) && after.users == st.users && after.nextUserId == st.nextUserId
      && |after.sessions| == |st.sessions|
      && (forall i :: 0 <= i < |st.sessions| ==> after.sessions[i].sessionId == st.sessions[i].sessionId)
      && (forall i :: 0 <= i < |st.sessions| && st.sessions[i].sessionId != session.sessionId ==>
            after.sessions[i] == st.sessions[i])
      && (forall i :: 0 <= i < |st.sessions| && st.sessions[i].sessionId == session.sessionId ==>
            var s := after.sessions[i];
            && s.userId == user.id && s.issuedAt == session.issuedAt
            && s.refreshToken == RandomTokenText(drawn.randomBytes) && s.fingerprint == fingerprint
            && s.ipAddress == ipAddress && s.userAgent == userAgent && s.location == drawn.location
            && s.expiresAt == now + SessionLifetime && s.lastRefreshAt == now)
      && tokens.refreshToken == (if handNew then RandomTokenText(drawn.randomBytes) else session.refreshToken)
      && (forall at :: ValidateToken(tokens.accessToken, at, issuer).Ok? <==> now <= at <= now + AccessTokenLifetime)
  {
    var (tokens, after) := Rotate(st, user, session, refreshToken, ipAddress, userAgent, fingerprint, drawn, now, issuer,
                                  markerLost, reuseLost, handNew);
    var updated := Rotated(user, session, ipAddress, userAgent, fingerprint, drawn, now);
    var rows := Sessions.Replace(st.sessions, updated);
    assert after.sessions == rows && after.users == st.users && after.nextUserId == st.nextUserId;
    Sessions.ReplaceKeepsUnique(st.sessions, updated);
    assert tokens.accessToken == PrepareTokenForSession(user, updated, now, issuer);
    forall at ensures ValidateToken(tokens.accessToken, at, issuer).Ok? <==> now <= at <= now + AccessTokenLifetime {
      AccessTokenWindow(user, updated, now, issuer, at);
    }
  }

  /** The marker and the replay entry a rotation writes. */
  lemma RotateCache(st: State, user: User, session: Session, refreshToken: string, ipAddress: string, userAgent: string,
                   fingerprint: string, drawn: Fresh, now: int, issuer: string,
                   markerLost: bool, reuseLost: bool, handNew: bool)
    ensures var (tokens, after) := Rotate(st, user, session, refreshToken, ipAddress, userAgent, fingerprint, drawn, now, issuer,
                                          markerLost, reuseLost, handNew);
      && (!markerLost ==> forall at :: now <= at < now + AccessTokenLifetime ==>
            MarkerConfirms(after.cache, session.sessionId, fingerprint, at))
      && (!reuseLost ==> forall at :: now <= at < now + TokenReuseWindow ==>
            CachedPair(after.cache, refreshToken, at) == Some(tokens))
      && (reuseLost ==> forall at :: at >= now ==> CachedPair(after.cache, refreshToken, at) == CachedPair(st.cache, refreshToken, at))
      && (!reuseLost ==> forall at :: at >= now + TokenReuseWindow ==> CachedPair(after.cache, refreshToken, at).None?)
  {
    var (tokens, after) := Rotate(st, user, session, refreshToken, ipAddress, userAgent, fingerprint, drawn, now, issuer,
                                  markerLost, reuseLost, handNew);
    KeysDistinct(session.sessionId, session.sessionId, refreshToken, 0);
    var marker := SessionKey(session.sessionId);
    var reuse := ReuseKey(refreshToken);
    var marked := if markerLost then st.cache
      else Put(st.cache, marker, StringValue(fingerprint), Some(AccessTokenLifetime), now);
    if !markerLost {
      forall at | now <= at < now + AccessTokenLifetime ensures MarkerConfirms(after.cache, session.sessionId, fingerprint, at) {
        ReadAfterWrite(st.cache, marker, StringValue(fingerprint), Some(AccessTokenLifetime), now, at, reuse);
        if !reuseLost {
          ReadAfterWrite(marked, reuse, TokenPair(tokens), Some(TokenReuseWindow), now, at, marker);
        }
      }
    }
    if !reuseLost {
      forall at | at >= now ensures
        && (at < now + TokenReuseWindow ==> CachedPair(after.cache, refreshToken, at) == Some(tokens))
        && (at >= now + TokenReuseWindow ==> CachedPair(after.cache, refreshToken, at).None?)
      {
        ReadAfterWrite(marked, reuse, TokenPair(tokens), Some(TokenReuseWindow), now, at, marker);
      }
    } else {
      forall at | at >= now ensures CachedPair(after.cache, refreshToken, at) == CachedPair(st.cache, refreshToken, at) {
        if !markerLost {
          ReadAfterWrite(st.cache, marker, StringValue(fingerprint), Some(AccessTokenLifetime), now, at, reuse);
        }
      }
    }
  }

  /** When the guards pass, there is no replay entry and the presented token is the stored one, the refresh rotates. */
  lemma RefreshRotates(st: State, accessToken: TokenText, refreshToken: string, ipAddress: string, userAgent: string,
                       fingerprint: string, drawn: Fresh, now: int, issuer: string,
                       markerLost: bool, reuseLost: bool, handNew: bool, user: User, session: Session)
    requires RefreshTarget(st, accessToken, fingerprint, now, issuer) == Some((user, session))
    requires CachedPair(st.cache, refreshToken, now).None? && session.refreshToken == refreshToken
    ensures var (tokens, after) := Rotate(st, user, session, refreshToken, ipAddress, userAgent, fingerprint, drawn, now, issuer,
                                          markerLost, reuseLost, handNew);
      RefreshWith(st, accessToken, refreshToken, ipAddress, userAgent, fingerprint, drawn, now, issuer,
                  markerLost, reuseLost, handNew) == (Ok(tokens), after)
  {
  }

  /**
   * A refresh whose access token names a session id fails, and changes nothing, when there
   * is no live replay entry and no row with that id stores the presented refresh token.
   */
  lemma RefreshRejectsStale(st: State, accessToken: TokenText, refreshToken: string, ipAddress: string, userAgent: string,
                            fingerprint: string, drawn: Fresh, now: int, issuer: string,
                            markerLost: bool, reuseLost: bool, handNew: bool, sessionId: Guid)
    requires Valid(st)
    requires accessToken.Compact? && ClaimValue(accessToken.jwt.claims, SessionIdClaim).Some?
    requires ParseGuid(ClaimValue(accessToken.jwt.claims, SessionIdClaim).value) == Some(sessionId)
    requires CachedPair(st.cache, refreshToken, now).None?
    requires forall s :: s in st.sessions && s.sessionId == sessionId ==> s.refreshToken != refreshToken
    ensures RefreshWith(st, accessToken, refreshToken, ipAddress, userAgent, fingerprint, drawn, now, issuer,
                        markerLost, reuseLost, handNew) == (Err(InvalidAuthToken()), st)
  {
    var target := RefreshTarget(st, accessToken, fingerprint, now, issuer);
    if target.Some? {
      RefreshTargetExactly(st, accessToken, fingerprint, now, issuer, target.value.0, target.value.1);
    }
  }

  /**
   * A refresh whose guards pass with a session succeeds exactly when a replay entry is
   * live or the presented refresh token is the session's stored one.
   */
  lemma RefreshAccepts(st: State, accessToken: TokenText, refreshToken: string, ipAddress: string, userAgent: string,
                       fingerprint: string, drawn: Fresh, now: int, issuer: string,
                       markerLost: bool, reuseLost: bool, handNew: bool, user: User, session: Session)
    requires Valid(st) && TargetHolds(st, accessToken, fingerprint, now, issuer, user, session)
    ensures RefreshWith(st, accessToken, refreshToken, ipAddress, userAgent, fingerprint, drawn, now, issuer,
                        markerLost, reuseLost, handNew).0.Ok? <==>
      CachedPair(st.cache, refreshToken, now).Some? || session.refreshToken == refreshToken
  {
    RefreshTargetExactly(st, accessToken, fingerprint, now, issuer, user, session);
  }

  /**
   * Replaying a refresh within ten seconds (with the same access token, refresh token and
   * fingerprint) returns the very pair of the rotation and changes nothing, whatever the
   * client's address, agent or the new random values.
   */
  lemma ReplayWithinWindow(st: State, accessToken: TokenText, refreshToken: string, ipAddress: string, userAgent: string,
                           fingerprint: string, drawn: Fresh, now: int, issuer: string, markerLost: bool, handNew: bool,
                           user: User, session: Session,
                           at: int, ipAddress2: string, userAgent2: string, drawn2: Fresh, markerLost2: bool, reuseLost2: bool)
    requires Valid(st)
    requires RefreshTarget(st, accessToken, fingerprint, now, issuer) == Some((user, session))
    requires CachedPair(st.cache, refreshToken, now).None? && session.refreshToken == refreshToken
    requires now <= at < now + TokenReuseWindow
    ensures var (r, after) := RefreshWith(st, accessToken, refreshToken, ipAddress, userAgent, fingerprint, drawn, now, issuer,
                                          markerLost, false, handNew);
      RefreshWith(after, accessToken, refreshToken, ipAddress2, userAgent2, fingerprint, drawn2, at, issuer,
                  markerLost2, reuseLost2, handNew) == (r, after)
  {
    var (tokens, after) := Rotate(st, user, session, refreshToken, ipAddress, userAgent, fingerprint, drawn, now, issuer,
                                  markerLost, false, handNew);
    RefreshRotates(st, accessToken, refreshToken, ipAddress, userAgent, fingerprint, drawn, now, issuer,
                   markerLost, false, handNew, user, session);
    RefreshTargetExactly(st, accessToken, fingerprint, now, issuer, user, session);
    RotateSpec(st, user, session, refreshToken, ipAddress, userAgent, fingerprint, drawn, now, issuer, markerLost, false, handNew);
    var i :| 0 <= i < |st.sessions| && st.sessions[i] == session;
    var updated := after.sessions[i];
    assert TargetHolds(after, accessToken, fingerprint, at, issuer, user, updated);
    RefreshTargetExactly(after, accessToken, fingerprint, at, issuer, user, updated);
    assert CachedPair(after.cache, refreshToken, at) == Some(tokens);
  }

  /**
   * The finding, as written: after a rotation the client holds the new access token and
   * the refresh token it presented, while the row now stores a new random one. Once the
   * ten-second replay entry is gone, refreshing with that pair always fails, whatever the
   * time, fingerprint, or lost cache writes; the session can no longer be refreshed.
   */
  lemma SecondRefreshFails(st: State, accessToken: TokenText, refreshToken: string, ipAddress: string, userAgent: string,
                           fingerprint: string, drawn: Fresh, now: int, issuer: string, markerLost: bool, reuseLost: bool,
                           user: User, session: Session,
                           later: int, ipAddress2: string, userAgent2: string, fingerprint2: string, drawn2: Fresh,
                           markerLost2: bool, reuseLost2: bool)
    requires Valid(st)
    requires RefreshTarget(st, accessToken, fingerprint, now, issuer) == Some((user, session))
    requires CachedPair(st.cache, refreshToken, now).None? && session.refreshToken == refreshToken
    requires RandomTokenText(drawn.randomBytes) != refreshToken
    requires later >= now + TokenReuseWindow
    ensures var (r, after) := Refresh(st, accessToken, refreshToken, ipAddress, userAgent, fingerprint, drawn, now, issuer,
                                      markerLost, reuseLost);
      && r.Ok? && r.value.refreshToken == refreshToken
      && Refresh(after, r.value.accessToken, r.value.refreshToken, ipAddress2, userAgent2, fingerprint2, drawn2, later, issuer,
                 markerLost2, reuseLost2) == (Err(InvalidAuthToken()), after)
  {
    var (tokens, after) := Rotate(st, user, session, refreshToken, ipAddress, userAgent, fingerprint, drawn, now, issuer,
                                  markerLost, reuseLost, false);
    RefreshRotates(st, accessToken, refreshToken, ipAddress, userAgent, fingerprint, drawn, now, issuer,
                   markerLost, reuseLost, false, user, session);
    RefreshTargetExactly(st, accessToken, fingerprint, now, issuer, user, session);
    RotateSpec(st, user, session, refreshToken, ipAddress, userAgent, fingerprint, drawn, now, issuer, markerLost, reuseLost, false);
    // No replay entry of the presented token is live any more.
    if reuseLost {
      var e := Lookup(st.cache, ReuseKey(refreshToken), later);
      if e.Some? {
        assert Lookup(st.cache, ReuseKey(refreshToken), now) == e;
      }
      assert CachedPair(st.cache, refreshToken, later).None?;
    }
    // The access token names the session, whose row now stores the new random token.
    var updated := Rotated(user, session, ipAddress, userAgent, fingerprint, drawn, now);
    AccessTokenClaims(user, updated, now, issuer);
    forall s | s in after.sessions && s.sessionId == session.sessionId ensures s.refreshToken != refreshToken {
      var j :| 0 <= j < |after.sessions| && after.sessions[j] == s;
    }
    RefreshRejectsStale(after, tokens.accessToken, refreshToken, ipAddress2, userAgent2, fingerprint2, drawn2, later, issuer,
                        markerLost2, reuseLost2, false, session.sessionId);
  }

  /**
   * The corrected refresh hands out the stored token, and the pair it returns can be used
   * for the next refresh: from ten seconds before the new access token expires until the
   * session expires, presenting it from the same client succeeds.
   */
  lemma SecondRefreshSucceeds(st: State, accessToken: TokenText, refreshToken: string, ipAddress: string, userAgent: string,
                              fingerprint: string, drawn: Fresh, now: int, issuer: string, markerLost: bool, reuseLost: bool,
                              user: User, session: Session,
                              later: int, ipAddress2: string, userAgent2: string, drawn2: Fresh,
                              markerLost2: bool, reuseLost2: bool)
    requires Valid(st)
    requires RefreshTarget(st, accessToken, fingerprint, now, issuer) == Some((user, session))
    requires CachedPair(st.cache, refreshToken, now).None? && session.refreshToken == refreshToken
    requires now + AccessTokenLifetime - TokenReuseWindow <= later < now + SessionLifetime
    ensures var (r, after) := RefreshCorrected(st, accessToken, refreshToken, ipAddress, userAgent, fingerprint, drawn, now, issuer,
                                               markerLost, reuseLost);
      && r.Ok? && r.value.refreshToken == RandomTokenText(drawn.randomBytes)
      && RefreshCorrected(after, r.value.accessToken, r.value.refreshToken, ipAddress2, userAgent2, fingerprint, drawn2, later,
                          issuer, markerLost2, reuseLost2).0.Ok?
  {
    var (tokens, after) := Rotate(st, user, session, refreshToken, ipAddress, userAgent, fingerprint, drawn, now, issuer,
                                  markerLost, reuseLost, true);
    RefreshRotates(st, accessToken, refreshToken, ipAddress, userAgent, fingerprint, drawn, now, issuer,
                   markerLost, reuseLost, true, user, session);
    RefreshTargetExactly(st, accessToken, fingerprint, now, issuer, user, session);
    RotateSpec(st, user, session, refreshToken, ipAddress, userAgent, fingerprint, drawn, now, issuer, markerLost, reuseLost, true);
    var i :| 0 <= i < |st.sessions| && st.sessions[i] == session;
    var updated := Rotated(user, session, ipAddress, userAgent, fingerprint, drawn, now);
    assert after.sessions[i] == updated;
    AccessTokenClaims(user, updated, now, issuer);
    AccessTokenWindow(user, updated, now, issuer, later);
    assert TargetHolds(after, tokens.accessToken, fingerprint, later, issuer, user, updated);
    RefreshAccepts(after, tokens.accessToken, tokens.refreshToken, ipAddress2, userAgent2, fingerprint, drawn2, later, issuer,
                   markerLost2, reuseLost2, true, user, updated);
  }

  /** A refresh with the pair of a new session fails until ten seconds before its access token expires. */
  lemma RefreshTooEarly(st: State, user: User, ipAddress: string, userAgent: string, fingerprint: string,
                        drawn: Fresh, now: int, issuer: string, markerLost: bool,
                        at: int, ipAddress2: string, userAgent2: string, fingerprint2: string, drawn2: Fresh,
                        markerLost2: bool, reuseLost2: bool)
    requires at < now + AccessTokenLifetime - TokenReuseWindow
    ensures var (tokens, after) := CreateSession(st, user, ipAddress, userAgent, fingerprint, drawn, now, issuer, markerLost);
      Refresh(after, tokens.accessToken, tokens.refreshToken, ipAddress2, userAgent2, fingerprint2, drawn2, at, issuer,
              markerLost2, reuseLost2) == (Err(InvalidAuthToken()), after)
  {
    var session := NewSession(user.id, ipAddress, userAgent, fingerprint, drawn, now);
    AccessTokenWindow(user, session, now, issuer, at);
  }

  /**
   * The pair of a new session refreshes, as written and corrected alike, from ten seconds
   * before its access token expires until the session expires, from the same client.
   */
  lemma RefreshAfterSessionCreated(st: State, user: User, ipAddress: string, userAgent: string, fingerprint: string,
                                   drawn: Fresh, now: int, issuer: string, markerLost: bool,
                                   later: int, ipAddress2: string, userAgent2: string, drawn2: Fresh,
                                   markerLost2: bool, reuseLost2: bool, handNew: bool)
    requires Valid(st) && user in st.users && drawn.sessionId !in Sessions.IdSet(st.sessions)
    requires now + AccessTokenLifetime - TokenReuseWindow <= later < now + SessionLifetime
    ensures var (tokens, after) := CreateSession(st, user, ipAddress, userAgent, fingerprint, drawn, now, issuer, markerLost);
      RefreshWith(after, tokens.accessToken, tokens.refreshToken, ipAddress2, userAgent2, fingerprint, drawn2, later, issuer,
                  markerLost2, reuseLost2, handNew).0.Ok?
  {
    var (tokens, after) := CreateSession(st, user, ipAddress, userAgent, fingerprint, drawn, now, issuer, markerLost);
    var session := NewSession(user.id, ipAddress, userAgent, fingerprint, drawn, now);
    CreateSessionSpec(st, user, ipAddress, userAgent, fingerprint, drawn, now, issuer, markerLost);
    assert after.sessions[|after.sessions| - 1] == session;
    AccessTokenClaims(user, session, now, issuer);
    AccessTokenWindow(user, session, now, issuer, later);
    assert TargetHolds(after, tokens.accessToken, fingerprint, later, issuer, user, session);
    RefreshAccepts(after, tokens.accessToken, tokens.refreshToken, ipAddress2, userAgent2, fingerprint, drawn2, later, issuer,
                   markerLost2, reuseLost2, handNew, user, session);
  }

  // ---------------------------------------------------------------------------
  // Revocation and queries

  lemma {:induction false} WithoutUserFacts(rows: seq<Session>, ownerId: int)
    ensures forall x :: x in WithoutUser(rows, ownerId) <==> x in rows && x.userId != ownerId
    ensures Sessions.UserSessions(WithoutUser(rows, ownerId), ownerId) == []
    ensures Sessions.UniqueIds(rows) ==> Sessions.UniqueIds(WithoutUser(rows, ownerId))
    decreases |rows|
  {
    if rows != [] {
      var t := rows[1..];
      WithoutUserFacts(t, ownerId);
      assert forall x :: x in rows <==> x == rows[0] || x in t;
      if rows[0].userId != ownerId {
        assert ([rows[0]] + WithoutUser(t, ownerId))[1..] == WithoutUser(t, ownerId);
        if Sessions.UniqueIds(rows) {
          Sessions.UniqueTail(rows);
          Sessions.NotInFiltered(t, WithoutUser(t, ownerId), rows[0].sessionId);
          Sessions.UniqueCons(rows[0], WithoutUser(t, ownerId));
        }
      } else if Sessions.UniqueIds(rows) {
        Sessions.UniqueTail(rows);
      }
    }
  }

  lemma {:induction false} WithoutUserOthers(rows: seq<Session>, ownerId: int, other: int)
    requires other != ownerId
    ensures Sessions.UserSessions(WithoutUser(rows, ownerId), other) == Sessions.UserSessions(rows, other)
    decreases |rows|
  {
    if rows != [] {
      WithoutUserOthers(rows[1..], ownerId, other);
      if rows[0].userId != ownerId {
        assert ([rows[0]] + WithoutUser(rows[1..], ownerId))[1..] == WithoutUser(rows[1..], ownerId);
      }
    }
  }

  lemma {:induction false} RemoveMarkersSpec(cache: Store, ids: seq<Guid>, lost: set<string>)
    ensures var r := RemoveMarkers(cache, ids, lost);
      && (forall k :: k in r ==> k in cache && r[k] == cache[k])
      && (forall i :: 0 <= i < |ids| && SessionKey(ids[i]) !in lost ==> SessionKey(ids[i]) !in r)
      && (forall k :: k in cache && (k in lost || forall i :: 0 <= i < |ids| ==> SessionKey(ids[i]) != k) ==> k in r)
    decreases |ids|
  {
    if ids != [] {
      var first := SessionKey(ids[0]);
      var next := if first in lost then cache else cache - {first};
      RemoveMarkersSpec(next, ids[1..], lost);
      var r := RemoveMarkers(cache, ids, lost);
      forall i | 0 <= i < |ids| && SessionKey(ids[i]) !in lost ensures SessionKey(ids[i]) !in r {
        if i > 0 {
          assert ids[1..][i - 1] == ids[i];
        }
      }
      forall k | k in cache && (k in lost || forall i :: 0 <= i < |ids| ==> SessionKey(ids[i]) != k) ensures k in r {
        if k !in lost {
          assert SessionKey(ids[0]) != k;
          forall i | 0 <= i < |ids[1..]| ensures SessionKey(ids[1..][i]) != k {
            assert ids[1..][i] == ids[i + 1];
          }
        }
      }
    }
  }

  /**
   * Revoking all sessions of a user deletes exactly that user's rows and returns their
   * number, removes the marker of each of them (those whose removal is not lost), keeps
   * every other cache entry as it was, and keeps the tables' keys.
   */
  lemma RevokeAllSpec(st: State, ownerId: int, lost: set<string>)
    ensures var (count, after) := RevokeAll(st, ownerId, lost);
      && count == |Sessions.UserSessions(st.sessions, ownerId)|
      && (forall x :: x in after.sessions <==> x in st.sessions && x.userId != ownerId)
      && (forall other :: other != ownerId ==>
            Sessions.UserSessions(after.sessions, other) == Sessions.UserSessions(st.sessions, other))
      && after.users == st.users && after.nextUserId == st.nextUserId
      && (forall s :: s in st.sessions && s.userId == ownerId && SessionKey(s.sessionId) !in lost ==>
            SessionKey(s.sessionId) !in after.cache)
      && (forall k :: k in after.cache ==> k in st.cache && after.cache[k] == st.cache[k])
      && (forall k :: k in st.cache && (forall s :: s in st.sessions && s.userId == ownerId ==> SessionKey(s.sessionId) != k) ==>
            k in after.cache)
      && (Valid(st) ==> Valid(after))
  {
    var (count, after) := RevokeAll(st, ownerId, lost);
    var owned := Sessions.UserSessions(st.sessions, ownerId);
    var ids := Sessions.Ids(owned);
    WithoutUserFacts(st.sessions, ownerId);
    Sessions.FilterMembers(st.sessions, ownerId, {});
    RemoveMarkersSpec(st.cache, ids, lost);
    forall other | other != ownerId
      ensures Sessions.UserSessions(after.sessions, other) == Sessions.UserSessions(st.sessions, other)
    {
      WithoutUserOthers(st.sessions, ownerId, other);
    }
    forall s | s in st.sessions && s.userId == ownerId && SessionKey(s.sessionId) !in lost
      ensures SessionKey(s.sessionId) !in after.cache
    {
      var i :| 0 <= i < |owned| && owned[i] == s;
      assert ids[i] == s.sessionId;
    }
    forall k | k in st.cache && (forall s :: s in st.sessions && s.userId == ownerId ==> SessionKey(s.sessionId) != k)
      ensures k in after.cache
    {
      forall i | 0 <= i < |ids| ensures SessionKey(ids[i]) != k {
        assert owned[i] in owned;
      }
    }
  }

  lemma {:induction false} WithoutSessionFacts(rows: seq<Session>, sessionId: Guid, ownerId: int)
    ensures forall x :: x in WithoutSession(rows, sessionId, ownerId) <==>
      x in rows && !(x.sessionId == sessionId && x.userId == ownerId)
    ensures Sessions.UniqueIds(rows) ==> Sessions.UniqueIds(WithoutSession(rows, sessionId, ownerId))
    decreases |rows|
  {
    if rows != [] {
      var t := rows[1..];
      var rest := WithoutSession(t, sessionId, ownerId);
      WithoutSessionFacts(t, sessionId, ownerId);
      assert forall x :: x in rows <==> x == rows[0] || x in t;
      if !(rows[0].sessionId == sessionId && rows[0].userId == ownerId) {
        assert ([rows[0]] + rest)[1..] == rest;
        if Sessions.UniqueIds(rows) {
          Sessions.UniqueTail(rows);
          Sessions.NotInFiltered(t, rest, rows[0].sessionId);
          Sessions.UniqueCons(rows[0], rest);
        }
      } else if Sessions.UniqueIds(rows) {
        Sessions.UniqueTail(rows);
      }
    }
  }

  /** Deleting shortens the table exactly when a row matches; otherwise the table is unchanged. */
  lemma {:induction false} WithoutSessionLength(rows: seq<Session>, sessionId: Guid, ownerId: int)
    ensures |WithoutSession(rows, sessionId, ownerId)| <= |rows|
    ensures (forall x :: x in rows ==> !(x.sessionId == sessionId && x.userId == ownerId)) ==>
      WithoutSession(rows, sessionId, ownerId) == rows
    ensures (exists x :: x in rows && x.sessionId == sessionId && x.userId == ownerId) ==>
      |WithoutSession(rows, sessionId, ownerId)| < |rows|
    decreases |rows|
  {
    if rows != [] {
      var t := rows[1..];
      WithoutSessionLength(t, sessionId, ownerId);
      assert forall x :: x in rows <==> x == rows[0] || x in t;
    }
  }

  /**
   * Revoking one session reports whether the owner had a row with that id, deletes exactly
   * the rows matching both, and removes the marker of that id in any case, so the session
   * no longer passes the cache check; every other cache entry and the users are kept.
   */
  lemma RevokeSpec(st: State, sessionId: Guid, ownerId: int, fingerprint: string, at: int)
    ensures var (deleted, after) := Revoke(st, sessionId, ownerId);
      && (deleted <==> exists s :: s in st.sessions && s.sessionId == sessionId && s.userId == ownerId)
      && (forall x :: x in after.sessions <==> x in st.sessions && !(x.sessionId == sessionId && x.userId == ownerId))
      && after.users == st.users && after.nextUserId == st.nextUserId
      && !MarkerConfirms(after.cache, sessionId, fingerprint, at)
      && (forall k :: k != SessionKey(sessionId) ==> Lookup(after.cache, k, at) == Lookup(st.cache, k, at))
      && (Valid(st) ==> Valid(after))
  {
    WithoutSessionFacts(st.sessions, sessionId, ownerId);
    WithoutSessionLength(st.sessions, sessionId, ownerId);
  }

  /**
   * Revoking a session id the caller does not own deletes nothing and reports false, yet
   * still removes that session's marker, so its real owner fails the cache check until a
   * refresh writes the marker again.
   */
  lemma RevokeForeignSession(st: State, sessionId: Guid, ownerId: int, fingerprint: string, at: int)
    requires forall s :: s in st.sessions ==> !(s.sessionId == sessionId && s.userId == ownerId)
    ensures var (deleted, after) := Revoke(st, sessionId, ownerId);
      && !deleted && after.sessions == st.sessions
      && !MarkerConfirms(after.cache, sessionId, fingerprint, at)
  {
    WithoutSessionLength(st.sessions, sessionId, ownerId);
  }

  /**
   * The session list of a user is exactly that user's rows, each once, most recently
   * issued first.
   */
  lemma SessionsOfSpec(st: State, ownerId: int)
    ensures var r := SessionsOf(st, ownerId);
      && Sessions.SortedDesc(Sessions.ByIssuedAt, r)
      && multiset(r) == multiset(Sessions.UserSessions(st.sessions, ownerId))
      && (forall x :: x in r <==> x in st.sessions && x.userId == ownerId)
  {
    var owned := Sessions.UserSessions(st.sessions, ownerId);
    var r := SessionsOf(st, ownerId);
    Sessions.SortDescFacts(Sessions.ByIssuedAt, owned);
    Sessions.FilterMembers(st.sessions, ownerId, {});
    forall x ensures x in r <==> x in owned {
      assert x in r <==> x in multiset(r);
      assert x in owned <==> x in multiset(owned);
    }
  }

  // ---------------------------------------------------------------------------
  // The service

  /**
   * The service over the user table (`users`, with its identity counter `nextUserId`),
   * the session repository and the cache. Each operation performs the steps of the
   * source on these objects and is proved to yield the result and the state of the
   * function above that states it, and to keep the tables' keys.
   */
  class AuthService {
    var users: seq<User>
    var nextUserId: int
    const sessionRepository: Sessions.SessionRepository
    const cache: MemoryCacheProvider
    const issuer: string

    constructor (users: seq<User>, nextUserId: int, sessionRepository: Sessions.SessionRepository,
                 cache: MemoryCacheProvider, issuer: string)
      ensures this.users == users && this.nextUserId == nextUserId
      ensures this.sessionRepository == sessionRepository && this.cache == cache && this.issuer == issuer
    {
      this.users := users;
      this.nextUserId := nextUserId;
      this.sessionRepository := sessionRepository;
      this.cache := cache;
      this.issuer := issuer;
    }

    /** The tables and the cache as one value. */
    function Snapshot(): State
      reads this, sessionRepository, cache
    {
      State(users, nextUserId, sessionRepository.sessions, cache.entries)
    }

    method SignUpAsync(username: string, password: string, hash: string -> string) returns (r: Result<User, DomainException>)
      modifies this
      ensures (r, Snapshot()) == SignUp(old(Snapshot()), username, password, hash)
      ensures Valid(old(Snapshot())) && old(nextUserId) <= Int32Max ==> Valid(Snapshot())
    {
      ghost var before := Snapshot();
      if FindByUsername(users, username).Some? {
        return Err(UserAlreadyExists());
      }
      var user := User(nextUserId, username, hash(password), Roles.User);
      users := users + [user];
      nextUserId := nextUserId + 1;
      r := Ok(user);
      if Valid(before) && before.nextUserId <= Int32Max {
        SignUpSpec(before, username, password, hash);
      }
    }

    method SignInAsync(username: string, password: string, verify: (string, string) -> bool)
      returns (r: Result<User, DomainException>)
      ensures r == SignIn(Snapshot(), username, password, verify)
      ensures r.Ok? ==> r.value in users && r.value.username == username && verify(password, r.value.passwordHash)
      ensures r.Err? ==> r.error == InvalidCredentials()
    {
      var user := FindByUsername(users, username);
      if user.None? || !verify(password, user.value.passwordHash) {
        return Err(InvalidCredentials());
      }
      return Ok(user.value);
    }

    /** `_createSessionAsync`: a new row for the user with a fresh id and a fresh refresh token. */
    method NewSessionAsync(userId: int, ipAddress: string, userAgent: string, fingerprint: string, drawn: Fresh, now: int)
      returns (session: Session)
      requires |drawn.randomBytes| == 32
      ensures session == NewSession(userId, ipAddress, userAgent, fingerprint, drawn, now)
      ensures |session.refreshToken| == 43 && session.expiresAt - now == ExpirationDays * 86400
    {
      var refreshToken := GenerateRandomToken(drawn.randomBytes);
      session := Session(
        sessionId := drawn.sessionId,
        refreshToken := refreshToken,
        fingerprint := fingerprint,
        userId := userId,
        userAgent := userAgent,
        ipAddress := ipAddress,
        location := drawn.location,
        issuedAt := now,
        expiresAt := now + ExpirationDays * 86400,
        lastRefreshAt := 0);
    }

    method CreateSessionAsync(user: User, ipAddress: string, userAgent: string, fingerprint: string,
                              drawn: Fresh, now: int, markerLost: bool) returns (tokens: TokensDto)
      requires |drawn.randomBytes| == 32
      modifies sessionRepository, cache
      ensures (tokens, Snapshot()) ==
        CreateSession(old(Snapshot()), user, ipAddress, userAgent, fingerprint, drawn, now, issuer, markerLost)
      ensures Valid(old(Snapshot())) && user in users && drawn.sessionId !in Sessions.IdSet(old(sessionRepository.sessions))
        ==> Valid(Snapshot())
    {
      ghost var before := Snapshot();
      sessionRepository.EnsureSessionLimitAsync(user.id);
      var session := NewSessionAsync(user.id, ipAddress, userAgent, fingerprint, drawn, now);
      sessionRepository.Add(session);
      if !markerLost {
        var written := cache.SetStringAsync(SessionKey(session.sessionId), fingerprint, Some(AccessTokenLifetime), now);
      }
      tokens := TokensDto(PrepareTokenForSession(user, session, now, issuer), session.refreshToken);
      if Valid(before) && user in users && drawn.sessionId !in Sessions.IdSet(before.sessions) {
        CreateSessionSpec(before, user, ipAddress, userAgent, fingerprint, drawn, now, issuer, markerLost);
      }
    }

    /**
     * The refresh as written: the pair handed out carries the presented refresh token, not
     * the newly stored one (see `SecondRefreshFails`).
     */
    method RefreshSessionAsync(accessToken: TokenText, refreshToken: string, ipAddress: string, userAgent: string,
                               fingerprint: string, drawn: Fresh, now: int, markerLost: bool, reuseLost: bool)
      returns (r: Result<TokensDto, DomainException>)
      requires |drawn.randomBytes| == 32
      modifies sessionRepository, cache
      ensures (r, Snapshot()) == Refresh(old(Snapshot()), accessToken, refreshToken, ipAddress, userAgent,
                                         fingerprint, drawn, now, issuer, markerLost, reuseLost)
      ensures Valid(old(Snapshot())) ==> Valid(Snapshot())
    {
      ghost var before := Snapshot();
      RefreshOutcomes(before, accessToken, refreshToken, ipAddress, userAgent, fingerprint, drawn, now, issuer,
                      markerLost, reuseLost, false);
      var target := RefreshTarget(Snapshot(), accessToken, fingerprint, now, issuer);
      if target.None? {
        return Err(InvalidAuthToken());
      }
      var user, session := target.value.0, target.value.1;
      var cached := cache.GetAsync(ReuseKey(refreshToken), now);
      assert CachedPair(before.cache, refreshToken, now) == if cached.Some? && cached.value.TokenPair? then Some(cached.value.tokens) else None;
      if cached.Some? && cached.value.TokenPair? {
        return Ok(cached.value.tokens);
      }
      if session.refreshToken != refreshToken {
        return Err(InvalidAuthToken());
      }
      var tokens := RotateAsync(user, session, refreshToken, ipAddress, userAgent, fingerprint, drawn, now, markerLost, reuseLost);
      r := Ok(tokens);
      RefreshRotates(before, accessToken, refreshToken, ipAddress, userAgent, fingerprint, drawn, now, issuer,
                     markerLost, reuseLost, false, user, session);
    }

    /**
     * The rotation step: a new row keeping the session's id and issue time replaces the
     * old one, its marker is written, and the pair, which carries the presented refresh
     * token, is remembered for the replay window.
     */
    method RotateAsync(user: User, session: Session, refreshToken: string, ipAddress: string, userAgent: string,
                       fingerprint: string, drawn: Fresh, now: int, markerLost: bool, reuseLost: bool)
      returns (tokens: TokensDto)
      requires |drawn.randomBytes| == 32
      modifies sessionRepository, cache
      ensures (tokens, Snapshot()) == Rotate(old(Snapshot()), user, session, refreshToken, ipAddress, userAgent,
                                             fingerprint, drawn, now, issuer, markerLost, reuseLost, false)
      ensures Valid(old(Snapshot())) ==> Valid(Snapshot())
    {
      ghost var before := Snapshot();
      var updated := NewSessionAsync(user.id, ipAddress, userAgent, fingerprint, drawn, now);
      updated := updated.(issuedAt := session.issuedAt, sessionId := session.sessionId, lastRefreshAt := now);
      assert updated == Rotated(user, session, ipAddress, userAgent, fingerprint, drawn, now);
      sessionRepository.Update(updated);
      if !markerLost {
        var written := cache.SetStringAsync(SessionKey(updated.sessionId), updated.fingerprint, Some(AccessTokenLifetime), now);
      }
      tokens := TokensDto(PrepareTokenForSession(user, updated, now, issuer), session.refreshToken);
      if !reuseLost {
        var written := cache.SetAsync(ReuseKey(refreshToken), TokenPair(tokens), Some(TokenReuseWindow), now);
      }
      if Valid(before) {
        RotateSpec(before, user, session, refreshToken, ipAddress, userAgent, fingerprint, drawn, now, issuer,
                   markerLost, reuseLost, false);
      }
    }

    method RevokeAllSessions(ownerId: int, lost: set<string>) returns (count: int)
      modifies sessionRepository, cache
      ensures (count, Snapshot()) == RevokeAll(old(Snapshot()), ownerId, lost)
      ensures Valid(old(Snapshot())) ==> Valid(Snapshot())
    {
      ghost var before := Snapshot();
      var ids := sessionRepository.GetSessionIdsByUserIdAsync(ownerId);
      var i := 0;
      while i < |ids|
        invariant 0 <= i <= |ids|
        invariant sessionRepository.sessions == before.sessions && users == before.users
        invariant RemoveMarkers(cache.entries, ids[i..], lost) == RemoveMarkers(before.cache, ids, lost)
      {
        assert ids[i..][1..] == ids[i + 1..];
        if SessionKey(ids[i]) !in lost {
          var removed := cache.RemoveAsync(SessionKey(ids[i]));
        }
        i := i + 1;
      }
      assert ids[i..] == [];
      count := |Sessions.UserSessions(sessionRepository.sessions, ownerId)|;
      sessionRepository.sessions := WithoutUser(sessionRepository.sessions, ownerId);
      RevokeAllSpec(before, ownerId, lost);
    }

    method RevokeSession(sessionId: Guid, ownerId: int) returns (deleted: bool)
      modifies sessionRepository, cache
      ensures (deleted, Snapshot()) == Revoke(old(Snapshot()), sessionId, ownerId)
      ensures Valid(old(Snapshot())) ==> Valid(Snapshot())
    {
      ghost var before := Snapshot();
      var rowsBefore := |sessionRepository.sessions|;
      sessionRepository.sessions := WithoutSession(sessionRepository.sessions, sessionId, ownerId);
      var removed := cache.RemoveAsync(SessionKey(sessionId));
      deleted := rowsBefore - |sessionRepository.sessions| > 0;
      RevokeSpec(before, sessionId, ownerId, "", 0);
    }

    /** The owner's sessions, most recently issued first. */
    function GetSessions(ownerId: int): (r: seq<Session>)
      reads this, sessionRepository, cache
      ensures Sessions.SortedDesc(Sessions.ByIssuedAt, r)
      ensures multiset(r) == multiset(Sessions.UserSessions(sessionRepository.sessions, ownerId))
      ensures forall x :: x in r <==> x in sessionRepository.sessions && x.userId == ownerId
    {
      SessionsOfSpec(Snapshot(), ownerId);
      SessionsOf(Snapshot(), ownerId)
    }

    method IsSessionValid(sessionId: Guid, fingerprint: string, now: int) returns (valid: bool)
      ensures valid == MarkerConfirms(Snapshot().cache, sessionId, fingerprint, now)
    {
      var stored := cache.GetStringAsync(SessionKey(sessionId), now);
      valid := stored == Some(fingerprint);
    }
  }
}
