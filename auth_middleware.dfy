/**
 * The authentication middleware of the access/refresh sample: every request must carry an
 * `X-Fingerprint` header; a bearer access token, when present and valid, is read claim by
 * claim into the request items, and the user is attached when the session's marker in the
 * cache confirms the fingerprint. Every failure after the fingerprint check is swallowed and
 * the pipeline goes on.
 */
module AuthenticationMiddleware {
  import opened Wrappers
  import opened Text
  import opened Entities
  import opened JwtService
  import opened MemoryCache
  import UserService
  import AuthService

  /** The `X-Fingerprint` item key. */
  const FingerprintItem: string := "Fingerprint"
  /** The key under which the authenticated user is stored. */
  const UserItem: string := "user"
  /** The scheme prefix of a bearer `Authorization` value. */
  const BearerPrefix: string := "Bearer "

  /**
   * The headers the middleware reads: the `X-Fingerprint` values (`None` when the header is
   * absent; a value may itself be null) and the `Authorization` values.
   */
  datatype Request = Request(fingerprintHeader: Option<seq<Option<string>>>, authorization: seq<Option<string>>)

  /** A value stored in `HttpContext.Items`. */
  datatype Item = StringItem(text: string) | IntItem(number: int) | GuidItem(guid: Guid) | UserValue(user: Option<User>)

  /**
   * What the middleware leaves behind: the status code it sets (`None` when it sets none),
   * the request items and whether the next delegate ran.
   */
  datatype Outcome = Outcome(status: Option<int>, items: map<string, Item>, nextCalled: bool)

  /** The request state while the claims are read; `failed` is a parse exception. */
  datatype ClaimsRead = ClaimsRead(items: map<string, Item>, userId: int, sessionId: Guid, failed: bool)

  /** The fingerprint header is missing, has no values, or its first value is null or blank. */
  predicate MissingFingerprint(request: Request) {
    || request.fingerprintHeader.None?
    || |request.fingerprintHeader.value| == 0
    || IsNullOrWhiteSpace(request.fingerprintHeader.value[0])
  }

  /** The token text after `"Bearer "` in the first `Authorization` value, if it has that form. */
  function BearerToken(authorization: seq<Option<string>>): (r: Option<string>)
    ensures r.Some? <==>
      |authorization| > 0 && authorization[0].Some? && StartsWith(authorization[0].value, BearerPrefix)
    ensures r.Some? ==> authorization[0].value == BearerPrefix + r.value
  {
    if |authorization| > 0 && authorization[0].Some? && authorization[0].value != []
       && StartsWith(authorization[0].value, BearerPrefix)
    then Some(authorization[0].value[|BearerPrefix|..])
    else None
  }

  /** One pass of the claims switch; a claim value that does not parse raises. */
  function ApplyClaim(claim: Claim, acc: ClaimsRead): ClaimsRead {
    if claim.claimType == AuthService.IdClaim then
      match ParseInt32(claim.value)
      case None => acc.(failed := true)
      case Some(id) => acc.(userId := id, items := acc.items[AuthService.IdClaim := IntItem(id)])
    else if claim.claimType == AuthService.UsernameClaim then
      acc.(items := acc.items[AuthService.UsernameClaim := StringItem(claim.value)])
    else if claim.claimType == AuthService.SessionIdClaim then
      match ParseGuid(claim.value)
      case None => acc.(failed := true)
      case Some(sid) => acc.(sessionId := sid, items := acc.items[AuthService.SessionIdClaim := GuidItem(sid)])
    else acc
  }

  /** The claims loop: each claim in order until one raises; the items written before it stay. */
  function ApplyClaims(claims: seq<Claim>, acc: ClaimsRead): ClaimsRead
    decreases |claims|
  {
    if claims == [] || acc.failed then acc
    else ApplyClaims(claims[1..], ApplyClaim(claims[0], acc))
  }

  /** The state the claims loop starts from: user id -1 and the empty guid. */
  function Start(items: map<string, Item>): ClaimsRead {
    ClaimsRead(items, -1, EmptyGuid(), false)
  }

  /**
   * `InvokeAsync` on a request, with `readToken` the reading of the token text, the cache
   * holding the session markers, the user table and the user cache: the outcome and the
   * user cache afterwards.
   */
  function Invoke(request: Request, readToken: string -> TokenText, issuer: string, markers: Store,
                  users: seq<User>, userCache: Store, now: int): (Outcome, Store) {
    if MissingFingerprint(request) then (Outcome(Some(401), map[], false), userCache)
    else
      var fingerprint := request.fingerprintHeader.value[0].value;
      var items := map[FingerprintItem := StringItem(fingerprint)];
      match BearerToken(request.authorization)
      case None => (Outcome(None, items, true), userCache)
      case Some(text) =>
        match ValidateToken(readToken(text), now, issuer)
        case Err(_) => (Outcome(None, items, true), userCache)
        case Ok(claims) =>
          var read := ApplyClaims(claims, Start(items));
          if read.failed || !AuthService.MarkerConfirms(markers, read.sessionId, fingerprint, now) then
            (Outcome(None, read.items, true), userCache)
          else
            var (user, cache) := UserService.GetUserById(userCache, users, read.userId, now);
            (Outcome(None, read.items[UserItem := UserValue(user)], true), cache)
  }

  // ---------------------------------------------------------------------------
  // The claims loop

  /** A parse exception stops the loop for good. */
  lemma {:induction false} FailedStays(claims: seq<Claim>, acc: ClaimsRead)
    requires acc.failed
    ensures ApplyClaims(claims, acc) == acc
  {
  }

  /**
   * The claims loop writes only the `id`, `username` and `session_id` items: every other
   * key keeps its presence and value.
   */
  lemma {:induction false} OtherItemsKept(claims: seq<Claim>, acc: ClaimsRead, key: string)
    requires key != AuthService.IdClaim && key != AuthService.UsernameClaim && key != AuthService.SessionIdClaim
    ensures var r := ApplyClaims(claims, acc);
      && (key in r.items <==> key in acc.items)
      && (key in acc.items ==> r.items[key] == acc.items[key])
    decreases |claims|
  {
    if claims != [] && !acc.failed {
      var next := ApplyClaim(claims[0], acc);
      assert next.items == acc.items || next.items == acc.items[claims[0].claimType := next.items[claims[0].claimType]];
      OtherItemsKept(claims[1..], next, key);
    }
  }

  /** Without an `id` claim the user id stays -1; without a `session_id` claim the session is the empty guid. */
  lemma {:induction false} Defaults(claims: seq<Claim>, acc: ClaimsRead)
    ensures (forall c :: c in claims ==> c.claimType != AuthService.IdClaim) ==>
      ApplyClaims(claims, acc).userId == acc.userId
    ensures (forall c :: c in claims ==> c.claimType != AuthService.SessionIdClaim) ==>
      ApplyClaims(claims, acc).sessionId == acc.sessionId
    decreases |claims|
  {
    if claims != [] && !acc.failed {
      assert forall c :: c in claims[1..] ==> c in claims;
      Defaults(claims[1..], ApplyClaim(claims[0], acc));
    }
  }

  /**
   * The claims of an issued access token (`id`, `session_id`, `username`, in that order)
   * are all read: the user id and session id are the token's and each has its item.
   */
  lemma IssuedClaimsRead(user: User, sessionId: Guid, items: map<string, Item>)
    requires IsInt32(user.id)
    ensures var r := ApplyClaims(
        [Claim(AuthService.IdClaim, IntToString(user.id)), Claim(AuthService.SessionIdClaim, GuidToString(sessionId)),
         Claim(AuthService.UsernameClaim, user.username)], Start(items));
      && !r.failed && r.userId == user.id && r.sessionId == sessionId
      && r.items == items[AuthService.IdClaim := IntItem(user.id)][AuthService.SessionIdClaim := GuidItem(sessionId)]
                         [AuthService.UsernameClaim := StringItem(user.username)]
  {
    var claims := [Claim(AuthService.IdClaim, IntToString(user.id)), Claim(AuthService.SessionIdClaim, GuidToString(sessionId)),
                   Claim(AuthService.UsernameClaim, user.username)];
    assert AuthService.SessionIdClaim[0] != AuthService.IdClaim[0];
    assert AuthService.UsernameClaim[0] != AuthService.IdClaim[0];
    assert AuthService.UsernameClaim[0] != AuthService.SessionIdClaim[0];
    var items1 := items[AuthService.IdClaim := IntItem(user.id)];
    var items2 := items1[AuthService.SessionIdClaim := GuidItem(sessionId)];
    var a1 := ApplyClaim(claims[0], Start(items));
    assert a1 == ClaimsRead(items1, user.id, EmptyGuid(), false) by {
      IntRoundTrip(user.id);
    }
    var a2 := ApplyClaim(claims[1], a1);
    assert a2 == ClaimsRead(items2, user.id, sessionId, false) by {
      GuidRoundTrip(sessionId);
    }
    var a3 := ApplyClaim(claims[2], a2);
    assert a3 == ClaimsRead(items2[AuthService.UsernameClaim := StringItem(user.username)], user.id, sessionId, false);
    assert claims[1..][1..][1..] == [];
    assert ApplyClaims(claims, Start(items)) == ApplyClaims(claims[1..], a1);
    assert ApplyClaims(claims[1..], a1) == ApplyClaims(claims[1..][1..], a2);
    assert ApplyClaims(claims[1..][1..], a2) == ApplyClaims(claims[1..][1..][1..], a3);
  }

  // ---------------------------------------------------------------------------
  // Properties of the middleware

  /**
   * The fingerprint gate: the response is 401 exactly when the fingerprint is missing or
   * blank, and then nothing is stored and the pipeline stops; otherwise the pipeline goes on
   * with the fingerprint stored, whatever the token.
   */
  lemma FingerprintGate(request: Request, readToken: string -> TokenText, issuer: string, markers: Store,
                        users: seq<User>, userCache: Store, now: int)
    ensures var (outcome, cache) := Invoke(request, readToken, issuer, markers, users, userCache, now);
      && (outcome.status == Some(401) <==> MissingFingerprint(request))
      && (MissingFingerprint(request) ==> !outcome.nextCalled && outcome.items == map[] && cache == userCache)
      && (!MissingFingerprint(request) ==>
            outcome.nextCalled && outcome.status.None? && FingerprintItem in outcome.items
            && outcome.items[FingerprintItem] == StringItem(request.fingerprintHeader.value[0].value))
  {
    if !MissingFingerprint(request) {
      var items := map[FingerprintItem := StringItem(request.fingerprintHeader.value[0].value)];
      var text := BearerToken(request.authorization);
      if text.Some? && ValidateToken(readToken(text.value), now, issuer).Ok? {
        OtherItemsKept(ValidateToken(readToken(text.value), now, issuer).value, Start(items), FingerprintItem);
      }
    }
  }

  /**
   * When the user is attached: exactly when the fingerprint is present, the first
   * `Authorization` value is a bearer token that validates, every claim parses, and the
   * session marker holds this fingerprint; the attached value is the user lookup of the
   * token's user id, and without it the user cache is untouched.
   */
  lemma UserAttached(request: Request, readToken: string -> TokenText, issuer: string, markers: Store,
                     users: seq<User>, userCache: Store, now: int)
    ensures var (outcome, cache) := Invoke(request, readToken, issuer, markers, users, userCache, now);
      var text := BearerToken(request.authorization);
      var validated := text.Some? && ValidateToken(readToken(text.value), now, issuer).Ok?;
      var read := if !MissingFingerprint(request) && validated
        then ApplyClaims(ValidateToken(readToken(text.value), now, issuer).value,
                         Start(map[FingerprintItem := StringItem(request.fingerprintHeader.value[0].value)]))
        else Start(map[]);
      && (UserItem in outcome.items <==>
            && !MissingFingerprint(request) && validated && !read.failed
            && AuthService.MarkerConfirms(markers, read.sessionId, request.fingerprintHeader.value[0].value, now))
      && (UserItem in outcome.items ==>
            (outcome.items[UserItem], cache) ==
              (UserValue(UserService.GetUserById(userCache, users, read.userId, now).0),
               UserService.GetUserById(userCache, users, read.userId, now).1))
      && (UserItem !in outcome.items ==> cache == userCache)
  {
    if !MissingFingerprint(request) {
      var items := map[FingerprintItem := StringItem(request.fingerprintHeader.value[0].value)];
      var text := BearerToken(request.authorization);
      if text.Some? && ValidateToken(readToken(text.value), now, issuer).Ok? {
        OtherItemsKept(ValidateToken(readToken(text.value), now, issuer).value, Start(items), UserItem);
      }
    }
  }

  /** A token that does not validate is ignored: the pipeline goes on without a user. */
  lemma InvalidTokenIgnored(request: Request, readToken: string -> TokenText, issuer: string, markers: Store,
                            users: seq<User>, userCache: Store, now: int)
    requires !MissingFingerprint(request)
    requires BearerToken(request.authorization).None? ||
             ValidateToken(readToken(BearerToken(request.authorization).value), now, issuer).Err?
    ensures var (outcome, cache) := Invoke(request, readToken, issuer, markers, users, userCache, now);
      && outcome.nextCalled && outcome.status.None? && UserItem !in outcome.items && cache == userCache
      && outcome.items == map[FingerprintItem := StringItem(request.fingerprintHeader.value[0].value)]
  {
  }

  /** Only the first `Authorization` value is consulted. */
  lemma FirstAuthorizationOnly(request: Request, first: Option<string>, rest: seq<Option<string>>, other: seq<Option<string>>,
                               readToken: string -> TokenText, issuer: string, markers: Store,
                               users: seq<User>, userCache: Store, now: int)
    ensures Invoke(request.(authorization := [first] + rest), readToken, issuer, markers, users, userCache, now) ==
            Invoke(request.(authorization := [first] + other), readToken, issuer, markers, users, userCache, now)
  {
    assert BearerToken([first] + rest) == BearerToken([first] + other);
  }

  /**
   * End to end with the service: a request carrying an access token issued for a session,
   * presented within its ten minutes with the fingerprint its marker holds, gets the id,
   * session id and username items and the user lookup of the token's user.
   */
  lemma IssuedTokenAuthenticates(request: Request, readToken: string -> TokenText, issuer: string, markers: Store,
                                 users: seq<User>, userCache: Store, user: User, session: Session,
                                 issuedAt: int, now: int)
    requires IsInt32(user.id)
    requires !MissingFingerprint(request)
    requires BearerToken(request.authorization).Some?
    requires readToken(BearerToken(request.authorization).value) ==
             AuthService.PrepareTokenForSession(user, session, issuedAt, issuer)
    requires issuedAt <= now <= issuedAt + AuthService.AccessTokenLifetime
    requires AuthService.MarkerConfirms(markers, session.sessionId, request.fingerprintHeader.value[0].value, now)
    ensures var (outcome, cache) := Invoke(request, readToken, issuer, markers, users, userCache, now);
      && outcome.nextCalled
      && outcome.items == map[FingerprintItem := StringItem(request.fingerprintHeader.value[0].value)]
                            [AuthService.IdClaim := IntItem(user.id)]
                            [AuthService.SessionIdClaim := GuidItem(session.sessionId)]
                            [AuthService.UsernameClaim := StringItem(user.username)]
                            [UserItem := UserValue(UserService.GetUserById(userCache, users, user.id, now).0)]
      && cache == UserService.GetUserById(userCache, users, user.id, now).1
  {
    var t := AuthService.PrepareTokenForSession(user, session, issuedAt, issuer);
    AuthService.AccessTokenWindow(user, session, issuedAt, issuer, now);
    assert ValidateToken(t, now, issuer) == Ok(t.jwt.claims);
    IssuedClaimsRead(user, session.sessionId, map[FingerprintItem := StringItem(request.fingerprintHeader.value[0].value)]);
  }

  // ---------------------------------------------------------------------------
  // The middleware

  class AuthenticationMiddleware {
    const issuer: string
    /** How the token handler reads a token text. */
    const readToken: string -> TokenText

    constructor (issuer: string, readToken: string -> TokenText)
      ensures this.issuer == issuer && this.readToken == readToken
    {
      this.issuer := issuer;
      this.readToken := readToken;
    }

    /**
     * `InvokeAsync`: the outcome and the user cache afterwards are those of `Invoke` on the
     * session markers and users of `authService` before the call.
     */
    method InvokeAsync(request: Request, authService: AuthService.AuthService, userService: UserService.UserService, now: int)
      returns (outcome: Outcome)
      modifies userService.cache
      ensures (outcome, userService.cache.entries) ==
        Invoke(request, readToken, issuer, old(authService.cache.entries), old(authService.users),
               old(userService.cache.entries), now)
    {
      if MissingFingerprint(request) {
        return Outcome(Some(401), map[], false);
      }
      var fingerprint := request.fingerprintHeader.value[0].value;
      var items := map[FingerprintItem := StringItem(fingerprint)];
      var authorization := request.authorization;
      if |authorization| > 0 {
        var authHeader := authorization[0];
        if authHeader.Some? && authHeader.value != [] && StartsWith(authHeader.value, BearerPrefix) {
          var token := authHeader.value[|BearerPrefix|..];
          var validated := ValidateToken(readToken(token), now, issuer);
          if validated.Ok? {
            var claims := validated.value;
            var userId := -1;
            var sessionId: Guid := EmptyGuid();
            var failed := false;
            var i := 0;
            while i < |claims| && !failed
              invariant 0 <= i <= |claims|
              invariant ApplyClaims(claims[i..], ClaimsRead(items, userId, sessionId, failed)) ==
                        ApplyClaims(claims, Start(map[FingerprintItem := StringItem(fingerprint)]))
            {
              var claim := claims[i];
              assert claims[i..][1..] == claims[i + 1..];
              if claim.claimType == AuthService.IdClaim {
                var parsed := ParseInt32(claim.value);
                if parsed.None? {
                  failed := true;
                } else {
                  userId := parsed.value;
                  items := items[AuthService.IdClaim := IntItem(userId)];
                }
              } else if claim.claimType == AuthService.UsernameClaim {
                items := items[AuthService.UsernameClaim := StringItem(claim.value)];
              } else if claim.claimType == AuthService.SessionIdClaim {
                var parsed := ParseGuid(claim.value);
                if parsed.None? {
                  failed := true;
                } else {
                  sessionId := parsed.value;
                  items := items[AuthService.SessionIdClaim := GuidItem(sessionId)];
                }
              }
              i := i + 1;
            }
            if !failed {
              var valid := authService.IsSessionValid(sessionId, fingerprint, now);
              if valid {
                var user := userService.GetUserByIdAsync(authService.users, userId, now);
                items := items[UserItem := UserValue(user)];
              }
            }
          }
        }
      }
      outcome := Outcome(None, items, true);
    }
  }
}
