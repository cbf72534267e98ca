/**
 * Token issuance and validation (src/AS-Auth/Auth.cs). Every operation is a
 * pure function: the clock reading (`DateTimeOffsetProvider.UtcNow`, whole
 * Unix seconds) and the fresh token id (`GuidProvider.NewGuid()`) are
 * parameters, and RSA signing is the symbolic signature of module Jwt.
 */
module Auth {
  import opened Wrappers
  import opened Scopes
  import opened Jwt

  /** Issuer of bearer tokens and audience of service assertions. */
  const AS_SOFTWARE_ISSUER: string := "auth.as-software.com"

  /** Longest lifetime a bearer token may be issued with. */
  const MAX_EXPIRATION_SECONDS: int := 3600
  /** Fixed lifetime of a service assertion. */
  const ASSERTION_LIFETIME_SECONDS: int := 60
  /** How far in the future `iat` may lie (`now.AddMinutes(1)`). */
  const IAT_FUTURE_SKEW_SECONDS: int := 60
  /** How far in the past `exp` may lie (`now.AddSeconds(-5)`). */
  const EXP_PAST_LEEWAY_SECONDS: int := 5
  /** Longest `exp - iat` a service assertion may claim (five minutes). */
  const MAX_ASSERTION_TTL_SECONDS: int := 300

  /** The `ArgumentException`s the issuers throw before signing anything. */
  datatype IssueError = ScopesNotSpecified | ExpirationInvalid
  {
    /** The `nameof` argument the exception is built with. */
    function ParamName(): string
    {
      match this
      case ScopesNotSpecified => "scopes"
      case ExpirationInvalid => "expirationSeconds"
    }

    /**
     * `ArgumentException.Message`: the text given to the constructor,
     * followed by the parameter name in the form .NET appends it.
     */
    function Message(): (m: string)
      ensures |m| > 6 && m[..6] == "Token "
      ensures this.ScopesNotSpecified? <==> m == "Token scopes must be specified (Parameter 'scopes')"
    {
      var text := match this
        case ScopesNotSpecified => "Token scopes must be specified"
        case ExpirationInvalid => "Token expiration is invalid";
      text + " (Parameter '" + ParamName() + "')"
    }
  }

  /** The failures `ValidateToken` returns, in the order it checks for them. */
  datatype TokenError =
    | InvalidTokenSignature(cause: SignatureError)
    | InvalidTokenIssuer
    | InvalidTokenIat
    | InvalidTokenExp
    | IssuedInFuture
    | TokenExpired
  {
    /** Position of this failure in the order `ValidateToken` checks for it. */
    function Rank(): nat
    {
      match this
      case InvalidTokenSignature(_) => 0
      case InvalidTokenIssuer => 1
      case InvalidTokenIat => 2
      case InvalidTokenExp => 3
      case IssuedInFuture => 4
      case TokenExpired => 5
    }

    /** The text of the `Exception` on the left of the `Either`. */
    function Message(): (m: string)
      ensures this.InvalidTokenSignature? <==> m == "Invalid token signature"
    {
      match this
      case InvalidTokenSignature(_) => "Invalid token signature"
      case InvalidTokenIssuer => "Invalid token issuer"
      case InvalidTokenIat => "Invalid token iat"
      case InvalidTokenExp => "Invalid token exp"
      case IssuedInFuture => "Token issued at must be in the past"
      case TokenExpired => "Token is expired"
    }
  }

  /** How every failure message of `ValidateServiceAssertion` begins. */
  const ASSERTION_SUBJECT: string := "Service JWT assertion"

  /** The failures `ValidateServiceAssertion` returns, in the order it checks for them. */
  datatype AssertionError =
    | AssertionInvalidSignature(cause: SignatureError)
    | RequiresIss
    | RequiresAud
    | InvalidAud
    | RequiresIat
    | RequiresExp
    | IatInFuture
    | AssertionExpired
    | TtlTooLong
    | RequiresScope
    | UnregisteredScopes
  {
    /** Position of this failure in the order `ValidateServiceAssertion` checks for it. */
    function Rank(): nat
    {
      match this
      case AssertionInvalidSignature(_) => 0
      case RequiresIss => 1
      case RequiresAud => 2
      case InvalidAud => 3
      case RequiresIat => 4
      case RequiresExp => 5
      case IatInFuture => 6
      case AssertionExpired => 7
      case TtlTooLong => 8
      case RequiresScope => 9
      case UnregisteredScopes => 10
    }

    /** The text of the `Exception` on the left of the `Either`; all share one prefix. */
    function Message(): (m: string)
      ensures |m| > |ASSERTION_SUBJECT| && m[..|ASSERTION_SUBJECT|] == ASSERTION_SUBJECT
    {
      ASSERTION_SUBJECT + Detail()
    }

    /** What follows the common prefix in `Message`. */
    function Detail(): string
    {
      match this
      case AssertionInvalidSignature(_) => " invalid signature"
      case RequiresIss => " requires iss"
      case RequiresAud => " requires aud"
      case InvalidAud => " invalid aud"
      case RequiresIat => " requires iat"
      case RequiresExp => " requires exp"
      case IatInFuture => " requires iat to be in the past"
      case AssertionExpired => " is expired"
      case TtlTooLong => "s TTL must be 5 minutes or less"
      case RequiresScope => " requires at least one scope"
      case UnregisteredScopes => " requested unregistered scopes"
    }
  }

  /**
   * What a validator gives back: the decoded token, the failure it returns
   * (the left side of the `Either`), or `Unreadable` when `ReadToken` throws
   * on a malformed string before the signature is looked at.
   */
  datatype Validation<E> = Valid(token: Token) | Invalid(error: E) | Unreadable

  /**
   * Issue a bearer token for `clientId` with the given scopes (in the
   * set's enumeration order), valid for `expirationSeconds` from `now`.
   */
  function IssueToken(privateKey: PrivateKey, keyId: string, clientId: string, scopes: seq<string>,
                      expirationSeconds: int, now: int, jti: string): (r: Result<Wire, IssueError>)
    ensures r.Failure? <==> |scopes| == 0 || expirationSeconds <= 0 || expirationSeconds > MAX_EXPIRATION_SECONDS
    ensures r.Failure? && |scopes| == 0 ==> r.error == ScopesNotSpecified
    ensures r.Failure? && |scopes| > 0 ==> r.error == ExpirationInvalid
    ensures r.Success? ==> ValidateTokenSignature(PublicKeyOf(privateKey), r.value).Success?
  {
    if |scopes| == 0 then
      Failure(ScopesNotSpecified)
    else if expirationSeconds <= 0 || expirationSeconds > MAX_EXPIRATION_SECONDS then
      Failure(ExpirationInvalid)
    else
      var claims := Claims(
        jti := Some(jti),
        iss := Some(AS_SOFTWARE_ISSUER),
        sub := Some(clientId),
        aud := [],
        scope := Some(Join(scopes, SEPARATOR)),
        iat := Some(now),
        exp := Some(now + expirationSeconds));
      Success(SignToken(privateKey, keyId, claims))
  }

  /**
   * Issue a service assertion: `clientId` asserts its own identity to this
   * system for the given scopes, valid for a fixed 60 seconds from `now`.
   */
  function ServiceAuthenticationAssertion(privateKey: PrivateKey, keyId: string, clientId: string,
                                          scopes: seq<string>, now: int, jti: string): (r: Result<Wire, IssueError>)
    ensures r.Failure? <==> |scopes| == 0
    ensures r.Failure? ==> r.error == ScopesNotSpecified
    ensures r.Success? ==> ValidateTokenSignature(PublicKeyOf(privateKey), r.value).Success?
  {
    if |scopes| == 0 then
      Failure(ScopesNotSpecified)
    else
      var claims := Claims(
        jti := Some(jti),
        iss := Some(clientId),
        sub := None,
        aud := [AS_SOFTWARE_ISSUER],
        scope := Some(Join(scopes, SEPARATOR)),
        iat := Some(now),
        exp := Some(now + ASSERTION_LIFETIME_SECONDS));
      Success(SignToken(privateKey, keyId, claims))
  }

  /** Validate a bearer token against `publicKey` at time `now`. */
  function ValidateToken(publicKey: PublicKey, token: Wire, now: int): (r: Validation<TokenError>)
    ensures r.Unreadable? <==> token.Malformed?
    ensures r.Valid? ==> token == Encoded(r.token)
  {
    match ReadToken(token)
    case None => Unreadable
    case Some(jwt) =>
      var signature := ValidateTokenSignature(publicKey, token);
      var claims := jwt.payload;
      if signature.Failure? then
        Invalid(InvalidTokenSignature(signature.error))
      else if claims.iss != Some(AS_SOFTWARE_ISSUER) then
        Invalid(InvalidTokenIssuer)
      else if claims.iat.None? then
        Invalid(InvalidTokenIat)
      else if claims.exp.None? then
        Invalid(InvalidTokenExp)
      else if claims.iat.value > now + IAT_FUTURE_SKEW_SECONDS then
        Invalid(IssuedInFuture)
      else if claims.exp.value < now - EXP_PAST_LEEWAY_SECONDS then
        Invalid(TokenExpired)
      else
        Valid(jwt)
  }

  /**
   * Validate a service assertion against `publicKey` at time `now`; the
   * scopes it requests must all be among `registeredScopes`.
   */
  function ValidateServiceAssertion(publicKey: PublicKey, registeredScopes: set<string>, token: Wire,
                                    now: int): (r: Validation<AssertionError>)
    ensures r.Unreadable? <==> token.Malformed?
    ensures r.Valid? ==> token == Encoded(r.token)
    ensures r.Valid? ==> r.token.payload.scope.Some? && ScopeSet(r.token.payload.scope.value) <= registeredScopes
  {
    match ReadToken(token)
    case None => Unreadable
    case Some(jwt) =>
      var signature := ValidateTokenSignature(publicKey, token);
      var claims := jwt.payload;
      if signature.Failure? then
        Invalid(AssertionInvalidSignature(signature.error))
      else if claims.iss.None? || claims.iss.value == "" then
        Invalid(RequiresIss)
      else if |claims.aud| == 0 || claims.aud[0] == "" then
        Invalid(RequiresAud)
      else if claims.aud[0] != AS_SOFTWARE_ISSUER then
        Invalid(InvalidAud)
      else if claims.iat.None? then
        Invalid(RequiresIat)
      else if claims.exp.None? then
        Invalid(RequiresExp)
      else if claims.iat.value > now + IAT_FUTURE_SKEW_SECONDS then
        Invalid(IatInFuture)
      else if claims.exp.value < now - EXP_PAST_LEEWAY_SECONDS then
        Invalid(AssertionExpired)
      else if claims.exp.value - claims.iat.value > MAX_ASSERTION_TTL_SECONDS then
        Invalid(TtlTooLong)
      else if claims.scope.None? || claims.scope.value == "" then
        Invalid(RequiresScope)
      else
        var requested := ScopeSet(claims.scope.value);
        if requested == {} then
          Invalid(RequiresScope)
        else if !(requested <= registeredScopes) then
          Invalid(UnregisteredScopes)
        else
          Valid(jwt)
  }

  // The two validators restated as ordered gate lists (see module Gates).

  function Raise<E>(condition: bool, error: E): Option<E>
  {
    if condition then Some(error) else None
  }

  /** The six gates of `ValidateToken`, in the order the source checks them. */
  function TokenGates(publicKey: PublicKey, jwt: Token, now: int): (gates: seq<Option<TokenError>>)
    ensures |gates| == 6
    ensures forall i | 0 <= i < |gates| :: gates[i].Some? ==> gates[i].value.Rank() == i
    ensures gates[0].Some? <==> ValidateTokenSignature(publicKey, Encoded(jwt)).Failure?
  {
    TokenIdentityGates(publicKey, jwt) + TokenPresenceGates(jwt) + TokenClockGates(jwt, now)
  }

  function TokenIdentityGates(publicKey: PublicKey, jwt: Token): seq<Option<TokenError>>
  {
    var signature := ValidateTokenSignature(publicKey, Encoded(jwt));
    [ if signature.Failure? then Some(InvalidTokenSignature(signature.error)) else None,
      Raise(jwt.payload.iss != Some(AS_SOFTWARE_ISSUER), InvalidTokenIssuer) ]
  }

  function TokenPresenceGates(jwt: Token): seq<Option<TokenError>>
  {
    [ Raise(jwt.payload.iat.None?, InvalidTokenIat),
      Raise(jwt.payload.exp.None?, InvalidTokenExp) ]
  }

  function TokenClockGates(jwt: Token, now: int): seq<Option<TokenError>>
  {
    var c := jwt.payload;
    [ Raise(c.iat.Some? && c.iat.value > now + IAT_FUTURE_SKEW_SECONDS, IssuedInFuture),
      Raise(c.exp.Some? && c.exp.value < now - EXP_PAST_LEEWAY_SECONDS, TokenExpired) ]
  }

  /**
   * The twelve gates of `ValidateServiceAssertion`, in the order the source
   * checks them: who signed it and for whom, which timestamps it has,
   * whether they fit the clock and the TTL ceiling, and which scopes it
   * requests. The eleventh repeats "requires at least one scope" on the
   * split claim and never raises.
   */
  function AssertionGates(publicKey: PublicKey, registeredScopes: set<string>, jwt: Token, now: int)
    : (gates: seq<Option<AssertionError>>)
    ensures |gates| == 12
    ensures forall i | 0 <= i < 10 :: gates[i].Some? ==> gates[i].value.Rank() == i
    ensures gates[10].None?
    ensures gates[11].Some? ==> gates[11].value.UnregisteredScopes?
    ensures gates[0].Some? <==> ValidateTokenSignature(publicKey, Encoded(jwt)).Failure?
  {
    AssertionIdentityGates(publicKey, jwt) + AssertionPresenceGates(jwt)
      + AssertionClockGates(jwt, now) + AssertionScopeGates(registeredScopes, jwt)
  }

  function AssertionIdentityGates(publicKey: PublicKey, jwt: Token): (gates: seq<Option<AssertionError>>)
    ensures |gates| == 4
    ensures forall i | 0 <= i < 4 :: gates[i].Some? ==> gates[i].value.Rank() == i
  {
    var signature := ValidateTokenSignature(publicKey, Encoded(jwt));
    var c := jwt.payload;
    [ if signature.Failure? then Some(AssertionInvalidSignature(signature.error)) else None,
      Raise(c.iss.None? || c.iss.value == "", RequiresIss),
      Raise(|c.aud| == 0 || c.aud[0] == "", RequiresAud),
      Raise(|c.aud| > 0 && c.aud[0] != AS_SOFTWARE_ISSUER, InvalidAud) ]
  }

  function AssertionPresenceGates(jwt: Token): (gates: seq<Option<AssertionError>>)
    ensures |gates| == 2
    ensures forall i | 0 <= i < 2 :: gates[i].Some? ==> gates[i].value.Rank() == 4 + i
  {
    [ Raise(jwt.payload.iat.None?, RequiresIat),
      Raise(jwt.payload.exp.None?, RequiresExp) ]
  }

  function AssertionClockGates(jwt: Token, now: int): (gates: seq<Option<AssertionError>>)
    ensures |gates| == 3
    ensures forall i | 0 <= i < 3 :: gates[i].Some? ==> gates[i].value.Rank() == 6 + i
  {
    var c := jwt.payload;
    [ Raise(c.iat.Some? && c.iat.value > now + IAT_FUTURE_SKEW_SECONDS, IatInFuture),
      Raise(c.exp.Some? && c.exp.value < now - EXP_PAST_LEEWAY_SECONDS, AssertionExpired),
      Raise(c.iat.Some? && c.exp.Some? && c.exp.value - c.iat.value > MAX_ASSERTION_TTL_SECONDS, TtlTooLong) ]
  }

  function AssertionScopeGates(registeredScopes: set<string>, jwt: Token): (gates: seq<Option<AssertionError>>)
    ensures |gates| == 3
    ensures gates[0].Some? ==> gates[0].value.RequiresScope?
    ensures gates[1].None?
    ensures gates[2].Some? ==> gates[2].value.UnregisteredScopes?
  {
    var c := jwt.payload;
    ScopeSetNonEmpty(if c.scope.Some? then c.scope.value else "");
    var scoped := c.scope.Some? && c.scope.value != "";
    [ Raise(!scoped, RequiresScope),
      Raise(scoped && ScopeSet(c.scope.value) == {}, RequiresScope),
      Raise(scoped && !(ScopeSet(c.scope.value) <= registeredScopes), UnregisteredScopes) ]
  }

  /** The verdict of a gate chain over a decoded token. */
  function Verdict<E>(firstFailure: Option<E>, jwt: Token): Validation<E>
  {
    match firstFailure
    case None => Valid(jwt)
    case Some(e) => Invalid(e)
  }
}
