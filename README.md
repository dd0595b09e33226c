# dev-samples: access/refresh authentication and the notification mailer, in Dafny

This project models two parts of the k1tbyte/dev-samples repository and proves properties of the models.

- **Access/refresh authentication sample (C#).**
  - Sign-up and sign-in.
  - Session creation behind a per-user cap of five sessions.
  - Refresh-token rotation. A refresh is bound to the client fingerprint and has a ten-second replay cache.
  - Revocation of one session or of all of a user's sessions.
  - The cache-only session check that the authentication middleware relies on.
  - The supporting pieces:
    - JWT issuance and validation rules, including the refresh window.
    - The base-64 refresh-token text.
    - The session repository's cap query.
    - The generic repository's auto-save counter.
    - The cache manager's provider choice and failure handling.
    - The in-memory cache provider.
    - The cache-aside user lookup.
    - The role filter.
    - The domain exceptions and their HTTP mapping.
    - The request validation attributes.
    - The `.env` variable mapper.
- **Notification mailer (TypeScript).**
  - The Kafka listener's sender table and per-message handling.
  - Subject dispatch in the base notification sender.
  - The template service's compiled-template cache.

**How the model is built.** Each source file is one Dafny module. Objects that update their fields in place are Dafny classes with those fields:
`AuthService`, `SessionRepository`, `BaseAsyncCrudRepository`, `MemoryCacheProvider`, `UserService`, `AuthenticationMiddleware`, `EnvMapper`, `KafkaListener` and `TemplateService`.

Each such class method is proved to produce exactly the result and the new state of a specification function over plain values. The properties the source promises are then proved as lemmas about those functions.

Files and modules:

| file | modules |
|---|---|
| `wrappers.dfy` | `Wrappers` |
| `text.dfy` | `Text` (.NET trimming, `int`/`Guid` formatting and parsing, `Split`, ASCII case folding) |
| `base64.dfy` | `Base64` |
| `entities.dfy` | `Roles`, `Entities` |
| `jwt_service.dfy` | `JwtService` |
| `memory_cache.dfy` | `MemoryCache` |
| `cache_manager.dfy` | `CacheManager` |
| `crud_repository.dfy` | `CrudRepository` |
| `session_repository.dfy` | `SessionRepository` |
| `user_service.dfy` | `UserService` |
| `domain_exceptions.dfy` | `DomainExceptions`, `AppExceptionHandler` |
| `auth_requests.dfy` | `HybridAuthRequest`, `AuthRequest` |
| `min_role.dfy` | `MinRole` |
| `auth_service.dfy` | `AuthService` |
| `auth_middleware.dfy` | `AuthenticationMiddleware` |
| `env_mapper.dfy` | `EnvMapper` |
| `notification_types.dfy` | `NotificationTypes` |
| `notification_sender.dfy` | `NotificationSender` |
| `kafka_listener.dfy` | `KafkaListener` |
| `template_service.dfy` | `TemplateService` |

**Inputs that stand for the environment.** The following are parameters of the operations that use them:
- the clock (`now`, in unix seconds);
- the configured issuer;
- `Guid.NewGuid()`;
- the 32 random bytes of a refresh token;
- the geolocation result;
- the password hash and verify functions;
- `JSON.parse`, schema `safeParse` and template rendering;
- the file system seen by the mapper and the template service;
- for each cache write the source does not await, whether that write was lost.

**Behaviour worth knowing.**
- **Refresh tokens are standard base 64.** `Convert.ToBase64String` uses the standard alphabet, with `+` and `/`, and only the padding is trimmed (Authentication/Hybrid/AccessRefresh/Services/Domain/TokenService/JwtService.cs:36).
- **A rotation stores a new refresh token but hands out the old one.** The rotated row gets a freshly generated token (AuthService.cs:105-116), while the pair returned to the client carries the token it presented (AuthService.cs:126). The consequence is recorded under Findings.
- **A user can end up with six sessions.** The cap of five is enforced before the new session is added.

## Model

| member | source | states |
|---|---|---|
| AuthService.FindByUsername | Authentication/AccessRefresh/Services/Application/AuthService/AuthService.cs:48-49 | The user found has the name asked for and is in the table. Nothing is found exactly when no user has that name. |
| AuthService.KeysDistinct | Authentication/AccessRefresh/Services/Application/AuthService/AuthService.cs:94 | `session:{id}` markers, `reused_refresh:{token}` entries and `user:{id}` keys never collide. Distinct sessions have distinct markers. |
| AuthService.SignUpSpec | Authentication/AccessRefresh/Services/Application/AuthService/AuthService.cs:29-44 | Sign-up fails with UserAlreadyExists (409) exactly when the name is taken, and then nothing changes. Otherwise exactly one user is appended: that name, the hash of the password, role User, and an id no other user has. Sessions and cache are untouched, and the table keys stay unique. |
| AuthService.SignInSpec | Authentication/AccessRefresh/Services/Application/AuthService/AuthService.cs:46-57 | Sign-in returns user u exactly when u has that name and the password verifies against u's hash. Every failure is InvalidCredentials. |
| AuthService.SignUpThenSignIn | Authentication/AccessRefresh/Services/Application/AuthService/AuthService.cs:29-57 | After a successful sign-up the same password signs in as the new user, and signing up the same name again fails with nothing changed. |
| AuthService.AccessTokenWindow | Authentication/AccessRefresh/Services/Application/AuthService/AuthService.cs:269-280 | An issued access token carries the issuer and expires ten minutes after issue. Full validation accepts it exactly from issue to expiry. The refresh validation accepts it exactly from ten seconds before expiry onwards. |
| AuthService.AccessTokenClaims | Authentication/AccessRefresh/Services/Application/AuthService/AuthService.cs:273-277 | The `id`, `session_id` and `username` claims of an issued token read back as the user's id, the session's id and the username, and the first two parse back to the same values. |
| AuthService.CreateSessionSpec | Authentication/AccessRefresh/Services/Application/AuthService/AuthService.cs:198-228 | The cap runs first, then one row is added, so the user ends with min(n,5)+1 sessions. Other users' sessions are untouched. The new row has the drawn id and the fingerprint, is issued now, expires in 60 days, has never been refreshed, and stores the refresh token handed out. Unless the marker write was lost, the session passes the cache check for ten minutes. The access token is accepted for ten minutes. |
| AuthService.RefreshTargetExactly | Authentication/AccessRefresh/Services/Application/AuthService/AuthService.cs:66-92 | The refresh guards pass for (user, session) exactly when the token is a readable HS256 token signed with the key, comes from this issuer and has `validTo <= now + 10 s` (expired tokens are accepted), its claims parse to the user's id and the session's id, the session belongs to the user and has this fingerprint, and the session has not expired. No cache entry is consulted. |
| AuthService.RefreshOutcomes | Authentication/AccessRefresh/Services/Application/AuthService/AuthService.cs:94-103 | A refresh fails with InvalidAuthToken exactly when a guard fails, or when there is no replay entry and the presented token is not the stored one. A failure changes nothing. A live replay entry is returned verbatim with nothing changed. Only a rotation changes state. |
| AuthService.RotateSpec | Authentication/AccessRefresh/Services/Application/AuthService/AuthService.cs:105-135 | A rotation keeps the row's id, owner and issue time. It sets a new random refresh token, the client's fingerprint, address and agent, an expiry 60 days from now and a refresh time of now. Every other row and every user is unchanged. The pair carries the session's previous refresh token (as written) or the new one (corrected). The marker (unless lost) confirms the session for 10 minutes. The replay entry (unless lost) returns the same pair for exactly 10 seconds. |
| AuthService.RefreshRotates | Authentication/AccessRefresh/Services/Application/AuthService/AuthService.cs:100-135 | When the guards pass, there is no replay entry and the presented token is the stored one, the refresh is exactly the rotation. |
| AuthService.RefreshRejectsStale | Authentication/AccessRefresh/Services/Application/AuthService/AuthService.cs:94-103 | With no live replay entry, a refresh token that no row of that session id stores is rejected with InvalidAuthToken, and nothing changes. |
| AuthService.RefreshAccepts | Authentication/AccessRefresh/Services/Application/AuthService/AuthService.cs:94-103 | Once the guards pass, a refresh succeeds exactly when a replay entry is live or the presented token is the stored one. |
| AuthService.ReplayWithinWindow | Authentication/AccessRefresh/Services/Application/AuthService/AuthService.cs:94-133 | Repeating a refresh within 10 seconds returns the very same pair and changes nothing, whatever the new address, agent or random values. |
| AuthService.SecondRefreshFails | Authentication/AccessRefresh/Services/Application/AuthService/AuthService.cs:123-127 | As written, the client gets back the refresh token it presented while the row stores a new one. Refreshing with the returned pair after the replay window always fails. |
| AuthService.SecondRefreshSucceeds | Authentication/AccessRefresh/Services/Application/AuthService/AuthService.cs:123-127 | Corrected, the client gets the stored token. The returned pair refreshes successfully from 10 s before the new access token expires until the session expires. |
| AuthService.RefreshTooEarly | Authentication/AccessRefresh/Services/Application/AuthService/AuthService.cs:66-78 | A new session's pair cannot be refreshed before the last 10 seconds of its access token's lifetime; nothing changes. |
| AuthService.RefreshAfterSessionCreated | Authentication/AccessRefresh/Services/Application/AuthService/AuthService.cs:59-135 | A new session's pair, presented from the same client, refreshes from 10 s before its access token expires until the session expires. |
| AuthService.RemoveMarkersSpec | Authentication/AccessRefresh/Services/Application/AuthService/AuthService.cs:140-144 | Removing markers removes each listed session's marker, unless that removal was lost. No entry is added or changed, and every other entry is kept. |
| AuthService.RevokeAllSpec | Authentication/AccessRefresh/Services/Application/AuthService/AuthService.cs:138-149 | Revoking all of a user's sessions returns the number of that user's rows and deletes exactly those rows. Other users' rows and the users are unchanged. Each of the user's markers is removed (unless the removal was lost), and every other cache entry is kept. |
| AuthService.RevokeSpec | Authentication/AccessRefresh/Services/Application/AuthService/AuthService.cs:151-163 | RevokeSession returns true exactly when a row matches both the session id and the owner, and deletes exactly those rows. The marker is removed in any case, so the session fails the cache check. Every other cache entry is kept. |
| AuthService.RevokeForeignSession | Authentication/AccessRefresh/Services/Application/AuthService/AuthService.cs:151-163 | Revoking a session the caller does not own deletes nothing and returns false, yet still removes that session's marker. |
| AuthService.SessionsOfSpec | Authentication/AccessRefresh/Services/Application/AuthService/AuthService.cs:165-169 | The listed sessions are exactly the owner's rows, as a permutation, sorted by IssuedAt descending. |
| AuthService.AuthService.constructor | Authentication/AccessRefresh/Services/Application/AuthService/AuthService.cs:17-23 | The service holds the given tables, session repository, cache and issuer. |
| AuthService.AuthService.SignUpAsync | Authentication/AccessRefresh/Services/Application/AuthService/AuthService.cs:29-44 | Result and new state are those of SignUp. While the identity is below the 32-bit limit, the keys stay unique. |
| AuthService.AuthService.SignInAsync | Authentication/AccessRefresh/Services/Application/AuthService/AuthService.cs:46-57 | It returns a user of that name whose hash verifies, or InvalidCredentials. |
| AuthService.AuthService.NewSessionAsync | Authentication/AccessRefresh/Services/Application/AuthService/AuthService.cs:230-267 | The new row has a 43-character refresh token and expires exactly 60 days after now. |
| AuthService.AuthService.CreateSessionAsync | Authentication/AccessRefresh/Services/Application/AuthService/AuthService.cs:198-228 | The tokens and new tables are those of CreateSession, and the keys stay unique. |
| AuthService.AuthService.RefreshSessionAsync | Authentication/AccessRefresh/Services/Application/AuthService/AuthService.cs:59-136 | Result and new state are those of the refresh as written (`Refresh`, handing out the presented refresh token; see Findings), and the keys stay unique. |
| AuthService.AuthService.RotateAsync | Authentication/AccessRefresh/Services/Application/AuthService/AuthService.cs:105-135 | The row replacement, the marker write, the pair (carrying the presented refresh token, as written) and the replay entry are those of Rotate, and the keys stay unique. |
| AuthService.AuthService.RevokeAllSessions | Authentication/AccessRefresh/Services/Application/AuthService/AuthService.cs:138-149 | Count and new state are those of RevokeAll. |
| AuthService.AuthService.RevokeSession | Authentication/AccessRefresh/Services/Application/AuthService/AuthService.cs:151-163 | Result and new state are those of Revoke. |
| AuthService.AuthService.GetSessions | Authentication/AccessRefresh/Services/Application/AuthService/AuthService.cs:165-169 | Exactly the owner's rows, as a permutation, sorted by IssuedAt descending. |
| AuthService.AuthService.IsSessionValid | Authentication/AccessRefresh/Services/Application/AuthService/AuthService.cs:193-196 | True exactly when the live `session:{id}` entry equals the fingerprint, so a cache miss gives false. |
| JwtService.ValidateTokenAccepts | Authentication/Hybrid/AccessRefresh/Services/Domain/TokenService/JwtService.cs:18-28 | Full validation accepts exactly the readable HS256 tokens that are signed with the key, come from the configured issuer and have notBefore ≤ now ≤ validTo (zero skew), whatever their audience. It yields the token's claims. |
| JwtService.WindowRule | Authentication/Hybrid/AccessRefresh/Services/Domain/TokenService/JwtService.cs:62-84 | The expiry-relaxed validation never throws. It accepts exactly the readable HS256, keyed, same-issuer tokens with validTo − window ≤ now, expired ones included. |
| JwtService.GenerateAccessToken | Authentication/Hybrid/AccessRefresh/Services/Domain/TokenService/JwtService.cs:44-55 | The token carries the claims, the issuer, expiry = the given time, not-before = now, and no audience. |
| JwtService.IssueValidateRoundTrip | Authentication/Hybrid/AccessRefresh/Services/Domain/TokenService/JwtService.cs:44-60 | An issued token validates exactly between issue and expiry and yields its claims. After expiry the failure is Expired. |
| JwtService.ReadToken | Authentication/Hybrid/AccessRefresh/Services/Domain/TokenService/JwtService.cs:39-42 | Null exactly when the text cannot be read. Otherwise it is the token the text holds. |
| JwtService.RandomTokenShape | Authentication/Hybrid/AccessRefresh/Services/Domain/TokenService/JwtService.cs:30-37 | A token from 32 bytes has 43 characters, all from the standard base-64 alphabet, and no '='. Appending '=' and decoding gives the bytes back. |
| JwtService.GenerateRandomToken | Authentication/Hybrid/AccessRefresh/Services/Domain/TokenService/JwtService.cs:30-37 | The method's token has 43 alphabet characters, no '=', and decodes (with one '=' appended) to the 32 generated bytes. |
| Base64.Encode | Authentication/Hybrid/AccessRefresh/Services/Domain/TokenService/JwtService.cs:36 | The text of n bytes has 4⌈n/3⌉ characters. |
| Base64.PairRoundTrip | Authentication/Hybrid/AccessRefresh/Services/Domain/TokenService/JwtService.cs:36 | Two final bytes encode to three alphabet characters and one '=', which decode back to the two bytes. |
| Base64.SingleRoundTrip | Authentication/Hybrid/AccessRefresh/Services/Domain/TokenService/JwtService.cs:36 | One final byte encodes to two alphabet characters and two '=', which decode back to the byte. |
| Base64.RoundTrip | Authentication/Hybrid/AccessRefresh/Services/Domain/TokenService/JwtService.cs:36 | Decoding the base-64 text of any byte string gives that byte string back. |
| MemoryCache.Lookup | Authentication/Hybrid/AccessRefresh/Services/Domain/CacheService/MemoryCacheProvider.cs:11-26 | A read finds a value exactly when the key holds an entry that has not expired, and the value is that entry's. |
| MemoryCache.ReadAfterWrite | Authentication/Hybrid/AccessRefresh/Services/Domain/CacheService/MemoryCacheProvider.cs:28-46 | After a write, the key reads back the value until the expiry has elapsed (forever without an expiry) and is absent afterwards. Other keys keep their values. |
| MemoryCache.ReadAfterRemove | Authentication/Hybrid/AccessRefresh/Services/Domain/CacheService/MemoryCacheProvider.cs:48-58 | After Remove(k), k reads nothing and other keys are unchanged. |
| MemoryCache.MemoryCacheProvider.constructor | Authentication/Hybrid/AccessRefresh/Services/Domain/CacheService/MemoryCacheProvider.cs:7 | A new provider is empty. |
| MemoryCache.MemoryCacheProvider.IsConnected | Authentication/Hybrid/AccessRefresh/Services/Domain/CacheService/MemoryCacheProvider.cs:9 | Always true. |
| MemoryCache.MemoryCacheProvider.GetAsync | Authentication/Hybrid/AccessRefresh/Services/Domain/CacheService/MemoryCacheProvider.cs:11-15 | The live value under the key, if any. |
| MemoryCache.MemoryCacheProvider.GetStringAsync | Authentication/Hybrid/AccessRefresh/Services/Domain/CacheService/MemoryCacheProvider.cs:17-21 | The live value under the key when it is a string. Otherwise null. |
| MemoryCache.MemoryCacheProvider.SetStringAsync | Authentication/Hybrid/AccessRefresh/Services/Domain/CacheService/MemoryCacheProvider.cs:28-36 | Stores the string, replacing any value under the key. The expiry is attached only when one is given. Returns true. |
| MemoryCache.MemoryCacheProvider.SetAsync | Authentication/Hybrid/AccessRefresh/Services/Domain/CacheService/MemoryCacheProvider.cs:38-46 | Stores the value in the same key space as strings. The expiry is attached only when one is given. Returns true. |
| MemoryCache.MemoryCacheProvider.RemoveAsync | Authentication/Hybrid/AccessRefresh/Services/Domain/CacheService/MemoryCacheProvider.cs:48-52 | Removes the key and returns true. |
| MemoryCache.MemoryCacheProvider.ExistsAsync | Authentication/Hybrid/AccessRefresh/Services/Domain/CacheService/MemoryCacheProvider.cs:54-58 | True exactly when a live entry is under the key. |
| CacheManager.GetCurrentCacheProvider | Authentication/AccessRefresh/Services/Domain/CacheService/CacheManager.cs:19-22 | The primary provider exactly when it is connected, computed on every call. |
| CacheManager.IsUsingFallback | Authentication/AccessRefresh/Services/Domain/CacheService/CacheManager.cs:94 | True exactly when the selected provider is the fallback, that is, when the primary is not connected. |
| CacheManager.Awaited | Authentication/AccessRefresh/Services/Domain/CacheService/CacheManager.cs:46-56 | An awaited call inside try/catch never raises: it gives the provider's answer, or the default on any failure. |
| CacheManager.Unawaited | Authentication/AccessRefresh/Services/Domain/CacheService/CacheManager.cs:58-68 | A returned-task call inside try/catch turns only a throw at the start into the default. A task that faults later reaches the caller. |
| CacheManager.Unguarded | Authentication/AccessRefresh/Services/Domain/CacheService/CacheManager.cs:36-44 | Without a catch, every provider failure reaches the caller. |
| CacheManager.FailureVisibility | Authentication/AccessRefresh/Services/Domain/CacheService/CacheManager.cs:24-92 | SetStringAsync and ExistsAsync never raise and give false on failure. SetAsync, RemoveAsync and GetAsync raise exactly on a later fault, and GetAsync gives null on a throw at the start. GetStringAsync raises on any failure. |
| CacheManager.OnlySelectedProviderMatters | Authentication/AccessRefresh/Services/Domain/CacheService/CacheManager.cs:24-92 | Every operation depends only on the selected provider's behaviour for the same key and value. |
| CrudRepository.AutoSaveCounting | Authentication/Hybrid/AccessRefresh/Repositories/Base/BaseAsyncCrudRepository.cs:58-70 | From counter n ≥ 0, k mutating calls make min(k,n) saves and leave max(n−k,0). At −1 every call saves and the counter stays −1. Below −1 nothing saves and the counter never moves. |
| CrudRepository.BaseAsyncCrudRepository.constructor | Authentication/Hybrid/AccessRefresh/Repositories/Base/BaseAsyncCrudRepository.cs:5-9 | The staged view equals the database and the counter starts at 0. Every entity sits under its own key (`Valid`), and every mutating method keeps that. |
| CrudRepository.BaseAsyncCrudRepository.WithAutoSaveNext | Authentication/Hybrid/AccessRefresh/Repositories/Base/BaseAsyncCrudRepository.cs:11-15 | Sets the counter to the argument (default 1), returns the same repository, and changes nothing else. |
| CrudRepository.BaseAsyncCrudRepository.SaveAsync | Authentication/Hybrid/AccessRefresh/Repositories/Base/BaseAsyncCrudRepository.cs:51-55 | Always commits the staged view, whatever the counter, and leaves the counter unchanged. |
| CrudRepository.BaseAsyncCrudRepository.SaveInternal | Authentication/Hybrid/AccessRefresh/Repositories/Base/BaseAsyncCrudRepository.cs:58-70 | Saves when the counter is −1 (kept) or positive (decremented). Otherwise the counter and the database are unchanged. |
| CrudRepository.BaseAsyncCrudRepository.Add | Authentication/Hybrid/AccessRefresh/Repositories/Base/BaseAsyncCrudRepository.cs:17-22 | Stages the entity under its key, takes one auto-save step, and returns the entity. |
| CrudRepository.BaseAsyncCrudRepository.Get | Authentication/Hybrid/AccessRefresh/Repositories/Base/BaseAsyncCrudRepository.cs:24-27 | The staged entity with that key, or null. |
| CrudRepository.BaseAsyncCrudRepository.Update | Authentication/Hybrid/AccessRefresh/Repositories/Base/BaseAsyncCrudRepository.cs:29-34 | Replaces the entity under its key, takes one auto-save step, and returns the entity. |
| CrudRepository.BaseAsyncCrudRepository.Delete | Authentication/Hybrid/AccessRefresh/Repositories/Base/BaseAsyncCrudRepository.cs:42-50 | Null returns false and changes nothing (no save, counter kept). Otherwise the entity is removed, one auto-save step is taken, and the result is true. |
| CrudRepository.BaseAsyncCrudRepository.DeleteById | Authentication/Hybrid/AccessRefresh/Repositories/Base/BaseAsyncCrudRepository.cs:36-40 | True exactly when the id is present. An unknown id changes nothing. A known id is removed with one auto-save step. |
| SessionRepository.SkipIndex | Authentication/AccessRefresh/Repositories/SessionRepository/SessionRepository.cs:16 | Skip never starts past the end of the sequence. |
| SessionRepository.LimitKeepsAtMost | Authentication/AccessRefresh/Repositories/SessionRepository/SessionRepository.cs:11-18 | After the cap the user has min(n, max) sessions (none when max ≤ 0). |
| SessionRepository.LimitDropsEarliest | Authentication/AccessRefresh/Repositories/SessionRepository/SessionRepository.cs:13-16 | Every deleted row is the user's and expires no later than any kept row of the user. No row is added. |
| SessionRepository.LimitOthersUntouched | Authentication/AccessRefresh/Repositories/SessionRepository/SessionRepository.cs:14 | Other users' sessions are unchanged, in order. |
| SessionRepository.LimitNoChange | Authentication/AccessRefresh/Repositories/SessionRepository/SessionRepository.cs:18 | With at most max sessions, the table is unchanged. |
| SessionRepository.LimitKeepsUnique | Authentication/AccessRefresh/Repositories/SessionRepository/SessionRepository.cs:11-18 | The cap keeps session ids unique. |
| SessionRepository.SortDescFacts | Authentication/AccessRefresh/Repositories/SessionRepository/SessionRepository.cs:15 | OrderByDescending gives a permutation of its input, sorted descending on the column, with the same ids. |
| SessionRepository.Replace | Authentication/Hybrid/AccessRefresh/Repositories/Base/BaseAsyncCrudRepository.cs:29-34 | Update replaces exactly the row with the updated key. Every other row, and the length, are unchanged. |
| SessionRepository.SessionRepository.constructor | Authentication/AccessRefresh/Repositories/SessionRepository/SessionRepository.cs:8-9 | The repository holds the given table. |
| SessionRepository.SessionRepository.EnsureSessionLimitAsync | Authentication/AccessRefresh/Repositories/SessionRepository/SessionRepository.cs:11-18 | The table afterwards is the capped table (default cap 5). Nothing is deleted when the query is empty. |
| SessionRepository.SessionRepository.Add | Authentication/Hybrid/AccessRefresh/Repositories/Base/BaseAsyncCrudRepository.cs:17-22 | The row is appended. |
| SessionRepository.SessionRepository.Update | Authentication/Hybrid/AccessRefresh/Repositories/Base/BaseAsyncCrudRepository.cs:29-34 | The row with the same key is replaced. |
| SessionRepository.SessionRepository.GetSessionIdsByUserIdAsync | Authentication/AccessRefresh/Repositories/SessionRepository/SessionRepository.cs:21-27 | Exactly the ids of the user's sessions, one per session. |
| UserService.UserKeyInjective | Authentication/AccessRefresh/Services/Application/UserService.cs:13 | Distinct 32-bit ids have distinct `user:{id}` keys. |
| UserService.FindUser | Authentication/AccessRefresh/Services/Application/UserService.cs:20 | The user found has the id asked for. Nothing is found only when no user has that id. |
| UserService.GetUserByIdPaths | Authentication/AccessRefresh/Services/Application/UserService.cs:11-29 | A cache hit returns the cached user without reading the table and changes nothing. A miss with no user returns null and writes nothing. A miss with a user returns it and caches it under `user:{id}` for one hour. |
| UserService.LookupIsCachedForAnHour | Authentication/AccessRefresh/Services/Application/UserService.cs:27-28 | After a miss fills the cache, lookups within the hour return the same user and change nothing, whatever the table then holds. After the hour they read the table again. |
| UserService.UserService.constructor | Authentication/AccessRefresh/Services/Application/UserService.cs:9 | The service holds the given cache. |
| UserService.UserService.GetUserByIdAsync | Authentication/AccessRefresh/Services/Application/UserService.cs:11-29 | Result and new cache are those of GetUserById. |
| AuthenticationMiddleware.BearerToken | Authentication/AccessRefresh/Middleware/AuthenticationMiddleware.cs:23-28 | A token exists exactly when the first Authorization value is present and starts with "Bearer " (ordinal). It is the text after those 7 characters. |
| AuthenticationMiddleware.FailedStays | Authentication/AccessRefresh/Middleware/AuthenticationMiddleware.cs:35-51 | Once a claim fails to parse, the remaining claims change nothing. |
| AuthenticationMiddleware.OtherItemsKept | Authentication/AccessRefresh/Middleware/AuthenticationMiddleware.cs:35-51 | The claim loop writes only the `id`, `username` and `session_id` items. |
| AuthenticationMiddleware.Defaults | Authentication/AccessRefresh/Middleware/AuthenticationMiddleware.cs:33-34 | Without an `id` claim the user id keeps its start value (−1). Without a `session_id` claim the session id keeps Guid.Empty. |
| AuthenticationMiddleware.IssuedClaimsRead | Authentication/AccessRefresh/Middleware/AuthenticationMiddleware.cs:35-51 | The three claims of an issued token are all read, giving the user's id, the session id and the username. |
| AuthenticationMiddleware.FingerprintGate | Authentication/AccessRefresh/Middleware/AuthenticationMiddleware.cs:12-21 | The status is 401 exactly when the fingerprint header is missing, empty or blank; then nothing is stored and next is not called. Otherwise the fingerprint is stored and next is called. |
| AuthenticationMiddleware.UserAttached | Authentication/AccessRefresh/Middleware/AuthenticationMiddleware.cs:30-61 | The user item is set exactly when the fingerprint is present, the bearer token fully validates, every claim parses and the session marker confirms the fingerprint. Its value is the user lookup of the claimed id. Without a user the user cache is untouched. |
| AuthenticationMiddleware.InvalidTokenIgnored | Authentication/AccessRefresh/Middleware/AuthenticationMiddleware.cs:23-65 | With no bearer token, or one that fails validation, the request continues with only the fingerprint item. |
| AuthenticationMiddleware.FirstAuthorizationOnly | Authentication/AccessRefresh/Middleware/AuthenticationMiddleware.cs:25 | Authorization values after the first never matter. |
| AuthenticationMiddleware.IssuedTokenAuthenticates | Authentication/AccessRefresh/Middleware/AuthenticationMiddleware.cs:10-66 | Within its ten minutes, a token issued for a session is accepted when presented with the fingerprint its marker holds. The request then gets the id, session and username items and the user lookup. |
| AuthenticationMiddleware.AuthenticationMiddleware.constructor | Authentication/AccessRefresh/Middleware/AuthenticationMiddleware.cs:7 | The middleware holds the issuer and the token reader. |
| AuthenticationMiddleware.AuthenticationMiddleware.InvokeAsync | Authentication/AccessRefresh/Middleware/AuthenticationMiddleware.cs:10-66 | Outcome and user cache are those of Invoke on the service's current markers and users. |
| MinRole.OnAuthorization | Authentication/Hybrid/AccessRefresh/Domain/Filters/MinRole.cs:11-24 | Unauthorized exactly when no user is attached. Forbid exactly when the user's role is below the minimum. Otherwise the result is unset. |
| MinRole.GateOrder | Authentication/Hybrid/AccessRefresh/Data/Entities/User.cs:35-40 | With None(0) < User(100) < Admin(200): passing a gate passes every lower gate and lets higher roles pass; Admin passes every gate; None fails a User gate. |
| DomainExceptions.FactoryStatuses | Authentication/Hybrid/AccessRefresh/Domain/Exceptions/DomainExceptions.cs:5-21 | UserAlreadyExists is 409 with its message. InvalidAuthToken and InvalidCredentials are 401, and the two differ. CaptchaChallengeFailed is 403. The default status is 500. The stack trace is always null. |
| AppExceptionHandler.Handle | Authentication/Hybrid/AccessRefresh/Extensions/AppExceptionHandler.cs:12-29 | A domain exception gives its own status and message. Anything else, or nothing, gives 500 with "An unexpected error occurred". The content type is always JSON and the body's only field is `error`. |
| AppExceptionHandler.OtherMessagesHidden | Authentication/Hybrid/AccessRefresh/Extensions/AppExceptionHandler.cs:15-16 | Non-domain exceptions give the same response whatever their message, and the same as no exception. |
| HybridAuthRequest.AcceptedIff | Authentication/Hybrid/AccessRefresh/Contracts/Requests/AuthRequests.cs:8-15 | Accepted exactly when the username is 3–50 UTF-16 code units long, all from [a-zA-Z0-9_], and the password is 6–100 code units long (`string.Length`). A bad username is reported on Username. |
| HybridAuthRequest.PatternUsernameLength | Authentication/Hybrid/AccessRefresh/Contracts/Requests/AuthRequests.cs:8-10 | A username that passes the character rule is measured in characters, since it is ASCII. |
| AuthRequest.AcceptedIff | Authentication/AccessRefresh/Contracts/Requests/AuthRequests.cs:8-12 | Accepted exactly when the username is 3–50 UTF-16 code units long, whatever its characters. The password never matters. |
| AuthRequest.AstralUsernameAccepted | Authentication/AccessRefresh/Contracts/Requests/AuthRequests.cs:8-9 | Two emoji count as four code units, so a username of two emoji is accepted. |
| Text.TrimStartSpec | Authentication/Hybrid/AccessRefresh/Services/Domain/EnvMapper.cs:67 | TrimStart keeps a suffix that is empty or starts with a non-white-space character, and every character it drops is white space. |
| Text.TrimEndSpec | Authentication/Hybrid/AccessRefresh/Services/Domain/EnvMapper.cs:76-77 | Trim's second half keeps a prefix that is empty or ends with a non-white-space character, and every character it drops is white space. |
| Text.Split | Authentication/Hybrid/AccessRefresh/Services/Domain/EnvMapper.cs:64-65 | Split gives at least one piece, no piece holds the separator, and joining the pieces gives the text back. |
| Text.IntRoundTrip | Authentication/AccessRefresh/Services/Application/AuthService/AuthService.cs:74 | A 32-bit id formats and parses back to itself. |
| Text.GuidRoundTrip | Authentication/AccessRefresh/Services/Application/AuthService/AuthService.cs:75 | A Guid formats and parses back to itself. |
| EnvMapper.AssignSpec | Authentication/Hybrid/AccessRefresh/Services/Domain/EnvMapper.cs:58-61 | In the case-insensitive dictionary, an assignment sets the key's value, leaves keys differing beyond case alone, and keeps a stored key's first casing. |
| EnvMapper.Seed | Authentication/Hybrid/AccessRefresh/Services/Domain/EnvMapper.cs:51-61 | The copied system variables are each found under their own name and value. Nothing else is present. |
| EnvMapper.Frozen | Authentication/Hybrid/AccessRefresh/Services/Domain/EnvMapper.cs:91 | `Variables` holds exactly the stored keys, with their stored casing and values. |
| EnvMapper.StripQuotesSpec | Authentication/Hybrid/AccessRefresh/Services/Domain/EnvMapper.cs:79-86 | One outer pair of matching double or single quotes is removed from a value longer than one character. Any other value is unchanged. |
| EnvMapper.SkippedLines | Authentication/Hybrid/AccessRefresh/Services/Domain/EnvMapper.cs:66-74 | Blank lines, comment lines and lines without '=' change nothing. |
| EnvMapper.SplitAtFirstEquals | Authentication/Hybrid/AccessRefresh/Services/Domain/EnvMapper.cs:72-86 | A line splits at its first '='. The key is trimmed, and the value is trimmed and unquoted. |
| EnvMapper.ApplyLinesAppend | Authentication/Hybrid/AccessRefresh/Services/Domain/EnvMapper.cs:70-89 | Parsing a + b is parsing a, then b. |
| EnvMapper.OtherLinesKeep | Authentication/Hybrid/AccessRefresh/Services/Domain/EnvMapper.cs:70-89 | Lines that do not assign a key (up to case) leave its value alone. |
| EnvMapper.CasingKept | Authentication/Hybrid/AccessRefresh/Services/Domain/EnvMapper.cs:88 | A key already present keeps its first casing through any later lines. |
| EnvMapper.AssigningLine | Authentication/Hybrid/AccessRefresh/Services/Domain/EnvMapper.cs:88 | A parsed line sets its key to its value. |
| EnvMapper.LastAssignmentWins | Authentication/Hybrid/AccessRefresh/Services/Domain/EnvMapper.cs:70-89 | The last line assigning a key (up to case) decides its value. |
| EnvMapper.FileOverridesSystem | Authentication/Hybrid/AccessRefresh/Services/Domain/EnvMapper.cs:58-91 | A file line for a system variable's name (up to case) overrides it in `Variables`, under the system variable's casing. |
| EnvMapper.WordRun | Authentication/Hybrid/AccessRefresh/Services/Domain/EnvMapper.cs:16-17 | The longest prefix of `\w` characters. |
| EnvMapper.PlaceholderNames | Authentication/Hybrid/AccessRefresh/Services/Domain/EnvMapper.cs:16-17 | Every placeholder name found is a non-empty run of word characters. |
| EnvMapper.NoDollarNoPlaceholder | Authentication/Hybrid/AccessRefresh/Services/Domain/EnvMapper.cs:16-17 | Text without '$' holds no placeholder. |
| EnvMapper.LeadingPlaceholder | Authentication/Hybrid/AccessRefresh/Services/Domain/EnvMapper.cs:16-17 | `${name}` at the start is found first, and the scan continues after it. |
| EnvMapper.SurroundingTextDropped | Authentication/Hybrid/AccessRefresh/Services/Domain/EnvMapper.cs:100-116 | A value with one placeholder becomes the variable's whole value (the text around it is dropped), or null when the name is unknown. |
| EnvMapper.LastPlaceholderDecides | Authentication/Hybrid/AccessRefresh/Services/Domain/EnvMapper.cs:100-116 | With two placeholders, the second decides the value. |
| EnvMapper.PlainValueKept | Authentication/Hybrid/AccessRefresh/Services/Domain/EnvMapper.cs:100-116 | A value without placeholders is unchanged. |
| EnvMapper.Substitute | Authentication/Hybrid/AccessRefresh/Services/Domain/EnvMapper.cs:95-117 | The substitution keeps every configuration key, in order. |
| EnvMapper.MappedAtMostCount | Authentication/Hybrid/AccessRefresh/Services/Domain/EnvMapper.cs:93-117 | The number resolved never exceeds the number of placeholders found. |
| EnvMapper.MapStateSpec | Authentication/Hybrid/AccessRefresh/Services/Domain/EnvMapper.cs:36-121 | Without a file nothing changes. A case clash among included system variables fails before any change. Otherwise keys and null values stay, and mapped ≤ count. |
| EnvMapper.EnvMapper.constructor | Authentication/Hybrid/AccessRefresh/Services/Domain/EnvMapper.cs:10-28 | System variables are included by default, and `Variables` starts empty. |
| EnvMapper.EnvMapper.WithSystemVariables | Authentication/Hybrid/AccessRefresh/Services/Domain/EnvMapper.cs:30-34 | Sets only the switch. |
| EnvMapper.EnvMapper.ParseFile | Authentication/Hybrid/AccessRefresh/Services/Domain/EnvMapper.cs:63-89 | The dictionary after the loop is the parse of the text's lines. |
| EnvMapper.EnvMapper.ReplacePlaceholders | Authentication/Hybrid/AccessRefresh/Services/Domain/EnvMapper.cs:95-116 | One entry of the loop: a null value is skipped. Otherwise the entry becomes its substituted value, and the counters are the placeholders found in it and those that name a variable. |
| EnvMapper.EnvMapper.SubstituteAll | Authentication/Hybrid/AccessRefresh/Services/Domain/EnvMapper.cs:93-117 | The configuration becomes its substitution, and the counters are the placeholders found and resolved. |
| EnvMapper.EnvMapper.MapVariables | Authentication/Hybrid/AccessRefresh/Services/Domain/EnvMapper.cs:36-121 | Outcome and new state are those of MapState. |
| NotificationTypes.TypeNameInjective | EmailSending/simple-mailer/src/senders/types.ts:1-7 | Distinct notification types have distinct wire names. |
| NotificationTypes.GetProperty | EmailSending/simple-mailer/src/KafkaListener.ts:33 | An object-literal lookup finds an own property exactly when the name is a key. Otherwise it finds an inherited `Object.prototype` member exactly for those names, and undefined for all other names. |
| NotificationSender.SendNotification | EmailSending/simple-mailer/src/senders/BaseNotificationSender.ts:7-18 | The handler is called exactly when the subject is an own entry and its schema accepts the payload, and it receives the parsed data. An unknown subject or a refused payload resolves without a call. An inherited name throws. |
| NotificationSender.ExactKeyDispatch | EmailSending/simple-mailer/src/senders/BaseNotificationSender.ts:8 | Dispatch depends only on the entry under that exact subject. |
| KafkaListener.SenderTableKeys | EmailSending/simple-mailer/src/KafkaListener.ts:13-16 | The table's keys are exactly the senders' type names. |
| KafkaListener.SenderTableLast | EmailSending/simple-mailer/src/KafkaListener.ts:13-16 | Under each type, the table holds the last sender of that type. |
| KafkaListener.GuardSkips | EmailSending/simple-mailer/src/KafkaListener.ts:26-28 | A message without a key, a value or a truthy `type` header is skipped before parsing. |
| KafkaListener.DeliveryExactly | EmailSending/simple-mailer/src/KafkaListener.ts:24-44 | A sender is called exactly when the guard passes, the value parses and the type names a sender. That sender gets the key as subject and the parsed payload. A parse failure and an unknown type are caught. |
| KafkaListener.KafkaListener.constructor | EmailSending/simple-mailer/src/KafkaListener.ts:10-17 | The reduce loop builds SenderTable of the senders. |
| KafkaListener.KafkaListener.HandleMessage | EmailSending/simple-mailer/src/KafkaListener.ts:24-44 | The handling is EachMessage on the table. |
| TemplateService.MissingTemplate | EmailSending/simple-mailer/src/services/TemplateService/TemplateService.ts:36-43 | No error exactly when every registered file exists. An error names a registered file and its id. |
| TemplateService.TemplateForSpec | EmailSending/simple-mailer/src/services/TemplateService/TemplateService.ts:48-68 | A cached id returns the cached template without reading files. An unregistered id gives "not registered". Every failure leaves the cache unchanged. A compile caches exactly the template of the file's text, and succeeds for a registered id exactly when its file is readable. |
| TemplateService.TemplateForKeepsRegistered | EmailSending/simple-mailer/src/services/TemplateService/TemplateService.ts:48-68 | The cache only ever gains the requested id, so it holds only registered ids. |
| TemplateService.PrecompileFromSpec | EmailSending/simple-mailer/src/services/TemplateService/TemplateService.ts:93-97 | Precompiling never loses or replaces a cached template. On success every id given is cached. |
| TemplateService.PrecompileAllSpec | EmailSending/simple-mailer/src/services/TemplateService/TemplateService.ts:93-97 | A successful precompileAll caches every registered template. It succeeds whenever every registered file is readable. |
| TemplateService.TemplateService.constructor | EmailSending/simple-mailer/src/services/TemplateService/TemplateService.ts:28-31 | Holds the base path and an empty cache. |
| TemplateService.TemplateService.GetTemplate | EmailSending/simple-mailer/src/services/TemplateService/TemplateService.ts:48-68 | Result and new cache are those of TemplateFor. |
| TemplateService.TemplateService.GenerateMarkup | EmailSending/simple-mailer/src/services/TemplateService/TemplateService.ts:73-81 | A getTemplate failure is passed on unchanged. Otherwise a throw from calling the template (its lazy parse included) or from the strict MJML conversion is the outcome, in that order. Success is exactly when all three steps succeed, with the converted HTML. The cache is getTemplate's in every case. |
| TemplateService.TemplateService.ClearCache | EmailSending/simple-mailer/src/services/TemplateService/TemplateService.ts:86-88 | The cache is empty. |
| TemplateService.TemplateService.PrecompileAll | EmailSending/simple-mailer/src/services/TemplateService/TemplateService.ts:93-97 | Result and cache are those of getTemplate over the registered ids in order, stopping at the first throw. |
| TemplateService.NewTemplateService | EmailSending/simple-mailer/src/services/TemplateService/TemplateService.ts:28-43 | Construction throws exactly when a registered template file is missing, with that file's error. Otherwise the new service has the base path and an empty cache. |

## Left out

- Asynchrony and concurrency: each operation runs to completion. The check-then-act race between two concurrent first refreshes of one token is not modelled.
- Cache writes the source does not await (`_ = cacheManager...`) are modelled as a write that happens or is lost, chosen by a parameter. Their ordering against later requests is not modelled.
- The service keeps one cache, the in-memory provider. `CacheManager` is modelled on its own, as provider choice and failure handling over abstract provider calls, and is not wired into `AuthService` or `UserService`.
- Entity Framework change tracking and identity resolution are not modelled. Tables are sequences in storage order; the database's order among rows with equal sort keys is replaced by one fixed order that meets the same contract.
- `AuthService.AuthService.SignUpAsync`: keeps the table keys only while the identity counter is below the 32-bit limit; identity exhaustion is not modelled.
- `AuthService.AuthService.CreateSessionAsync`: assumes `Guid.NewGuid()` yields an id no row has, which the source also relies on.
- Each refresh token is drawn from 32 given bytes; the randomness itself is an input.
- A cache entry of the wrong kind (a token pair read as a string) reads as a miss; the exception a .NET cast would raise there is not modelled.
- `MemoryCacheProvider.Get`, the synchronous twin of `GetAsync`, is not a separate member: `MemoryCache.MemoryCacheProvider.GetAsync` models both.
- `SessionRepository.SessionRepository.Add`, `SessionRepository.SessionRepository.Update`: model an add or update followed by a save; the session repository's auto-save counter is modelled once, in `CrudRepository`.
- `Text.ParseGuid`: reads the N, D, B and P forms of `Guid.TryParse`. The X form (`{0x…,0x…,0x…,{0x..,…}}`) is not modelled, so a `session_id` claim written in that form is read as unparseable (AuthService.cs:75, AuthenticationMiddleware.cs:47) where .NET would parse it.
- `AuthService.ClaimValue`: takes the first claim of a type. A token carrying the `id` or `session_id` claim twice gives a list in `TokenValidationResult.Claims`, whose text does not parse, so .NET rejects it (AuthService.cs:72-75). Only a holder of the signing key can mint such a token.
- The geolocation lookup, its exception and logging are an input: the result, or `None` when it failed.
- Password hashing and verification are function parameters. The only property assumed of them is that a password verifies against its own hash, where a lemma needs it.
- The JWT library is abstracted: a token is a value with claims, issuer, not-before, expiry, algorithm and whether it is signed with the configured key. Signature cryptography and the compact encoding are not modelled.
- `ClaimsPrincipal` claim-type mapping is not modelled; claims are read by their own type names.
- `AuthenticationMiddleware.AuthenticationMiddleware.InvokeAsync`: reads the session markers and users from the service's current state and does not model the request's other items or headers.
- Logging (`ILogger`, `console.error`, `console.log`) is left out.
- Case folding in the env mapper covers ASCII letters only, and `\w` is ASCII word characters; .NET's Unicode rules are not modelled.
- `.env` file discovery (`GetEnvironmentPath`, the DEBUG paths, `File.Exists`, `File.ReadAllText`) is file-system I/O. The mapper receives the text of the file found, or none.
- The configuration-reload callback in the `EnvMapper` constructor is not modelled.
- Configuration keys are assumed unique, as `IConfiguration.AsEnumerable()` yields them; the substitution writes by position.
- `path.resolve` is simplified to joining the base path and the file name with '/'.
- Calling a Handlebars template and `mjml2html` are the `run` and `convert` parameters of `GenerateMarkup`. Each may fail, with a message the model does not construct. `handlebars.compile` parses lazily, so the parse error of a malformed template surfaces as a failure of `run`, not of getTemplate.
- A rejected handler promise in `sendNotification` is not modelled; the handler call is the last step modelled.
- Kafka connect, subscribe, run and disconnect are broker I/O and are left out. Header values that are arrays are not modelled.
- `KafkaListener.KafkaListener.HandleMessage`: `JSON.parse` is a parameter returning a parse or a failure, and numbers are integers.

## Findings

| source | as written | input that shows it | evidently intended | confidence | as-written member | corrected member |
|---|---|---|---|---|---|---|
| Authentication/AccessRefresh/Services/Application/AuthService/AuthService.cs:126 | The refreshed pair carries `session.RefreshToken`, the token just presented. The row is rewritten with a newly generated token. | A session is created at t0 and refreshed at t0+590 s with its pair, giving a new pair (A1, R0) while the row now stores R1 ≠ R0. At t0+1180 s, when the replay entry is long gone, refreshing with (A1, R0) throws InvalidAuthToken (R0 ≠ R1). The session can never be refreshed again. | The pair carries the stored `updatedSession.RefreshToken`, so the client can refresh again until the session expires. | not executed | AuthService.SecondRefreshFails | AuthService.SecondRefreshSucceeds |

The class methods `AuthService.AuthService.RefreshSessionAsync` and `AuthService.AuthService.RotateAsync` follow the code as written (`AuthService.Refresh`). The corrected refresh is `AuthService.RefreshCorrected`, and all refresh lemmas are stated for both through `AuthService.RefreshWith`.
