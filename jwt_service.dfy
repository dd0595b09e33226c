/**
 * The token rules of JwtService: the random refresh-token text, the parameters used to
 * validate access tokens, full validation, the validation that ignores expiry but refuses
 * a token too far from its expiry, token issuance and reading.
 *
 * The JSON Web Token library is abstracted: a token is a `Jwt` value whose signature is
 * either made with the configured key or not, and a presented token text is either
 * unreadable or a readable compact token.
 */
module JwtService {
  import opened Wrappers
  import opened Text
  import Base64

  /** `SecurityAlgorithms.HmacSha256`. */
  const Algorithm: string := "HS256"

  datatype Claim = Claim(claimType: string, value: string)

  /** The readable content of a compact token. */
  datatype Jwt = Jwt(
    claims: seq<Claim>,
    issuer: string,
    audience: Option<string>,
    notBefore: int,
    validTo: int,
    algorithm: string,
    signedWithKey: bool)

  /** A token as presented by a client: text the handler cannot read, or a compact token. */
  datatype TokenText = Malformed(text: string) | Compact(jwt: Jwt)

  datatype ValidationParameters = ValidationParameters(
    validateIssuerSigningKey: bool,
    validateIssuer: bool,
    validIssuer: string,
    validAlgorithms: seq<string>,
    validateAudience: bool,
    validateLifetime: bool,
    clockSkew: int)

  /** Why the handler refuses a token (each is an exception in the library). */
  datatype ValidationFailure =
    | Unreadable
    | AlgorithmNotAllowed
    | InvalidSignature
    | NotYetValid
    | Expired
    | InvalidIssuer

  /** The service's `_validationParameters`, with the configured issuer. */
  function Parameters(issuer: string): ValidationParameters {
    ValidationParameters(
      validateIssuerSigningKey := true,
      validateIssuer := true,
      validIssuer := issuer,
      validAlgorithms := [Algorithm],
      validateAudience := false,
      validateLifetime := true,
      clockSkew := 0)
  }

  /**
   * The handler's validation against a parameter set at time `now` (unix seconds):
   * readable, allowed algorithm, signed with the key, within its lifetime widened by the
   * clock skew when lifetime is validated, and from the valid issuer when the issuer is
   * validated. The audience is never consulted since `validateAudience` is false in the
   * only parameter sets used here.
   */
  function Validate(p: ValidationParameters, token: TokenText, now: int): Result<Jwt, ValidationFailure> {
    match token
    case Malformed(_) => Err(Unreadable)
    case Compact(jwt) =>
      if jwt.algorithm !in p.validAlgorithms then Err(AlgorithmNotAllowed)
      else if !jwt.signedWithKey then Err(InvalidSignature)
      else if p.validateLifetime && jwt.notBefore > now + p.clockSkew then Err(NotYetValid)
      else if p.validateLifetime && jwt.validTo < now - p.clockSkew then Err(Expired)
      else if p.validateIssuer && jwt.issuer != p.validIssuer then Err(InvalidIssuer)
      else Ok(jwt)
  }

  /** `ValidateToken`: full validation; an `Err` is the exception the handler throws. */
  function ValidateToken(token: TokenText, now: int, issuer: string): Result<seq<Claim>, ValidationFailure> {
    match Validate(Parameters(issuer), token, now)
    case Ok(jwt) => Ok(jwt.claims)
    case Err(e) => Err(e)
  }

  /** A token that full validation accepts at `now`. */
  predicate AcceptedAt(token: TokenText, now: int, issuer: string) {
    && token.Compact?
    && token.jwt.algorithm == Algorithm
    && token.jwt.signedWithKey
    && token.jwt.issuer == issuer
    && token.jwt.notBefore <= now <= token.jwt.validTo
  }

  /**
   * Full validation accepts exactly the readable HS256 tokens signed with the key, from the
   * configured issuer, with `notBefore <= now <= validTo` (no clock skew), whatever their
   * audience; the claims it yields are the token's own.
   */
  lemma ValidateTokenAccepts(token: TokenText, now: int, issuer: string)
    ensures ValidateToken(token, now, issuer).Ok? <==> AcceptedAt(token, now, issuer)
    ensures ValidateToken(token, now, issuer).Ok? ==> ValidateToken(token, now, issuer).value == token.jwt.claims
  {
  }

  /**
   * `ValidateTokenWithoutTime`: the same checks with lifetime validation switched off on a
   * copy of the parameters; any failure becomes `None`, and so does a token whose expiry
   * minus the refresh window is still after `now`.
   */
  function ValidateTokenWithoutTime(token: TokenText, refreshWindow: int, now: int, issuer: string): Option<Jwt> {
    var parameters := Parameters(issuer).(validateLifetime := false);
    match Validate(parameters, token, now)
    case Err(_) => None
    case Ok(jwt) => if jwt.validTo - refreshWindow > now then None else Some(jwt)
  }

  /**
   * The refresh window rule: the expiry-relaxed validation accepts a token exactly when it
   * is readable, HS256, signed with the key, from the issuer, and `validTo <= now + window`;
   * not-before and expiry are not checked, so an expired token is accepted.
   */
  lemma {:induction false} WindowRule(token: TokenText, refreshWindow: int, now: int, issuer: string)
    ensures var r := ValidateTokenWithoutTime(token, refreshWindow, now, issuer);
      && (r.Some? <==>
            && token.Compact?
            && token.jwt.algorithm == Algorithm
            && token.jwt.signedWithKey
            && token.jwt.issuer == issuer
            && token.jwt.validTo <= now + refreshWindow)
      && (r.Some? ==> r.value == token.jwt)
  {
  }

  /**
   * `GenerateAccessToken`: a token with the given claims, the configured issuer, expiry
   * `expires` and not-before `now`, signed with the key. The token constructor refuses an
   * expiry that is not after not-before.
   */
  function GenerateAccessToken(claims: seq<Claim>, expires: int, now: int, issuer: string): (t: TokenText)
    requires expires > now
    ensures t.Compact? && t.jwt.claims == claims && t.jwt.issuer == issuer
    ensures t.jwt.validTo == expires && t.jwt.notBefore == now && t.jwt.audience.None?
  {
    Compact(Jwt(claims, issuer, None, now, expires, Algorithm, true))
  }

  /**
   * Issue and validate round trip: a generated token is accepted by full validation
   * exactly from its issuing time to its expiry, and yields the claims it was given.
   */
  lemma IssueValidateRoundTrip(claims: seq<Claim>, expires: int, now: int, issuer: string, at: int)
    requires expires > now
    ensures var r := ValidateToken(GenerateAccessToken(claims, expires, now, issuer), at, issuer);
      && (r.Ok? <==> now <= at <= expires)
      && (r.Ok? ==> r.value == claims)
      && (at > expires ==> r == Err(Expired))
  {
  }

  /** `ReadToken`: the token when the handler can read it, otherwise `null`. */
  function ReadToken(token: TokenText): (r: Option<Jwt>)
    ensures r.None? <==> token.Malformed?
    ensures r.Some? ==> token == Compact(r.value)
  {
    match token
    case Malformed(_) => None
    case Compact(jwt) => Some(jwt)
  }

  // ---------------------------------------------------------------------------
  // Refresh-token text
  // ---------------------------------------------------------------------------

  /** The refresh-token text for a given 32-byte random buffer. */
  function RandomTokenText(randomBytes: seq<Base64.byte>): string {
    TrimEndChar(Base64.Encode(randomBytes), '=')
  }

  /**
   * The shape of every refresh token: 43 characters of the standard alphabet (so never
   * '='), and appending the one trimmed '=' gives the base 64 text of the 32 bytes back.
   */
  lemma RandomTokenShape(randomBytes: seq<Base64.byte>)
    requires |randomBytes| == 32
    ensures var token := RandomTokenText(randomBytes);
      && |token| == 43
      && Base64.AllAlphabet(token)
      && '=' !in token
      && Base64.Decode(token + "=") == Some(randomBytes)
  {
    var e := Base64.Encode(randomBytes);
    assert |e| == 44;
    Base64.OnePad(randomBytes);
    Base64.RoundTrip(randomBytes);
    TrimOnePad(e);
    var token := RandomTokenText(randomBytes);
    assert token == e[..43] && token + "=" == e;
  }

  /** Trimming a text that is alphabet characters and one '=' leaves the alphabet part. */
  lemma TrimOnePad(e: string)
    requires e != [] && e[|e| - 1] == '=' && Base64.AllAlphabet(e[..|e| - 1])
    ensures var body := e[..|e| - 1];
      TrimEndChar(e, '=') == body && '=' !in body && body + "=" == e
  {
    var body := e[..|e| - 1];
    forall i | 0 <= i < |body| ensures body[i] != '=' {
      assert Base64.IsAlphabetChar(body[i]);
    }
    assert TrimEndChar(e, '=') == TrimEndChar(body, '=');
    assert body + "=" == e;
  }

  /**
   * `GenerateRandomToken`: fills a 32-byte buffer from the random number generator (the
   * generator's output is the parameter) and returns its base 64 text with the padding
   * trimmed.
   */
  method GenerateRandomToken(generated: seq<Base64.byte>) returns (token: string)
    requires |generated| == 32
    ensures token == RandomTokenText(generated)
    ensures |token| == 43 && Base64.AllAlphabet(token) && '=' !in token
    ensures Base64.Decode(token + "=") == Some(generated)
  {
    var randomBytes := new Base64.byte[32];
    forall i | 0 <= i < 32 {
      randomBytes[i] := generated[i];
    }
    token := TrimEndChar(Base64.Encode(randomBytes[..]), '=');
    assert randomBytes[..] == generated;
    RandomTokenShape(generated);
  }
}
