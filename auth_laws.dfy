/**
 * What the issuers and validators of module Auth promise, and how they fit
 * together: the claims each issuer builds, fail-fast validation in a fixed
 * gate order, the asymmetric clock tolerances, the assertion TTL ceiling,
 * the scope subset rule and the issue-then-validate round trips.
 */
module AuthLaws {
  import opened Wrappers
  import opened Scopes
  import opened Jwt
  import opened Gates
  import opened Auth

  /**
   * The claims every accepted request puts into a bearer token. The scope
   * claim is the space-joined list; when no name holds a space, splitting
   * it gives the list, and so the set, back.
   */
  lemma {:induction false} IssuedTokenClaims(privateKey: PrivateKey, keyId: string, clientId: string, scopes: seq<string>,
                          expirationSeconds: int, now: int, jti: string)
    requires |scopes| > 0 && 0 < expirationSeconds <= MAX_EXPIRATION_SECONDS
    ensures IssueToken(privateKey, keyId, clientId, scopes, expirationSeconds, now, jti).Success?
    ensures
      var jwt := ReadToken(IssueToken(privateKey, keyId, clientId, scopes, expirationSeconds, now, jti).value).value;
      var c := jwt.payload;
      && jwt.header == Header(RS512, keyId)
      && c.jti == Some(jti)
      && c.iss == Some(AS_SOFTWARE_ISSUER)
      && c.sub == Some(clientId)
      && c.aud == []
      && c.scope == Some(Join(scopes, SEPARATOR))
      && c.iat == Some(now)
      && c.exp == Some(now + expirationSeconds)
      && ((forall p :: p in scopes ==> SEPARATOR !in p) ==>
            Split(c.scope.value, SEPARATOR) == scopes && ScopeSet(c.scope.value) == (set p | p in scopes))
  {
    if forall p :: p in scopes ==> SEPARATOR !in p {
      SplitJoin(scopes, SEPARATOR);
      ScopeSetOfJoin(scopes);
    }
  }

  /**
   * The claims every accepted service assertion carries; its lifetime is
   * exactly 60 seconds. The scope set survives when no name holds a space.
   */
  lemma {:induction false} ServiceAssertionClaims(privateKey: PrivateKey, keyId: string, clientId: string, scopes: seq<string>,
                               now: int, jti: string)
    requires |scopes| > 0
    ensures ServiceAuthenticationAssertion(privateKey, keyId, clientId, scopes, now, jti).Success?
    ensures
      var jwt := ReadToken(ServiceAuthenticationAssertion(privateKey, keyId, clientId, scopes, now, jti).value).value;
      var c := jwt.payload;
      && jwt.header == Header(RS512, keyId)
      && c.jti == Some(jti)
      && c.aud == [AS_SOFTWARE_ISSUER]
      && c.iss == Some(clientId)
      && c.sub.None?
      && c.scope == Some(Join(scopes, SEPARATOR))
      && c.iat == Some(now)
      && c.exp.Some? && c.exp.value - c.iat.value == ASSERTION_LIFETIME_SECONDS
      && ((forall p :: p in scopes ==> SEPARATOR !in p) ==>
            ScopeSet(c.scope.value) == (set p | p in scopes))
  {
    if forall p :: p in scopes ==> SEPARATOR !in p {
      ScopeSetOfJoin(scopes);
    }
  }

  /**
   * Fail-fast: `ValidateToken` reports the error of the first raising gate
   * of `TokenGates` and accepts, returning the token unchanged, exactly when
   * no gate raises.
   */
  lemma ValidateTokenFailsFast(publicKey: PublicKey, jwt: Token, now: int)
    ensures ValidateToken(publicKey, Encoded(jwt), now) == Verdict(FirstFailure(TokenGates(publicKey, jwt, now)), jwt)
  {
    var identity := TokenIdentityGates(publicKey, jwt);
    var presence := TokenPresenceGates(jwt);
    var clock := TokenClockGates(jwt, now);
    FirstFailureAppend(identity, presence);
    FirstFailureAppend(identity + presence, clock);
    if identity[0].Some? {
      FirstFailureIsEarliest(identity, 0);
    } else if identity[1].Some? {
      FirstFailureIsEarliest(identity, 1);
    } else {
      assert FirstFailure(identity).None?;
      TokenTimeGatesDecide(publicKey, jwt, now);
    }
  }

  lemma TokenTimeGatesDecide(publicKey: PublicKey, jwt: Token, now: int)
    requires FirstFailure(TokenIdentityGates(publicKey, jwt)).None?
    ensures ValidateToken(publicKey, Encoded(jwt), now)
         == Verdict(FirstFailure(TokenPresenceGates(jwt) + TokenClockGates(jwt, now)), jwt)
  {
    var identity := TokenIdentityGates(publicKey, jwt);
    assert identity[0].None? && identity[1].None?;
    var presence := TokenPresenceGates(jwt);
    var clock := TokenClockGates(jwt, now);
    FirstFailureAppend(presence, clock);
    if presence[0].Some? { FirstFailureIsEarliest(presence, 0); }
    else if presence[1].Some? { FirstFailureIsEarliest(presence, 1); }
    else if clock[0].Some? { FirstFailureIsEarliest(clock, 0); }
    else if clock[1].Some? { FirstFailureIsEarliest(clock, 1); }
  }

  /** `ValidateToken` accepts exactly the tokens that pass all six checks, and returns them unchanged. */
  lemma ValidateTokenAccepts(publicKey: PublicKey, jwt: Token, now: int)
    ensures ValidateToken(publicKey, Encoded(jwt), now).Valid?
        <==> && ValidateTokenSignature(publicKey, Encoded(jwt)).Success?
             && jwt.payload.iss == Some(AS_SOFTWARE_ISSUER)
             && jwt.payload.iat.Some? && jwt.payload.exp.Some?
             && jwt.payload.iat.value <= now + 60
             && jwt.payload.exp.value >= now - 5
    ensures ValidateToken(publicKey, Encoded(jwt), now).Valid? ==> ValidateToken(publicKey, Encoded(jwt), now).token == jwt
  {
  }

  /**
   * The clock tolerances of `ValidateToken`, once signature, issuer and both
   * timestamps are in order: `iat` may lie up to 60 s ahead of `now`,
   * `exp` up to 5 s behind it, and the `iat` check comes first.
   */
  lemma TokenTimeWindow(publicKey: PublicKey, jwt: Token, now: int)
    requires ValidateTokenSignature(publicKey, Encoded(jwt)).Success?
    requires jwt.payload.iss == Some(AS_SOFTWARE_ISSUER)
    requires jwt.payload.iat.Some? && jwt.payload.exp.Some?
    ensures ValidateToken(publicKey, Encoded(jwt), now) == Invalid(IssuedInFuture)
        <==> jwt.payload.iat.value > now + 60
    ensures ValidateToken(publicKey, Encoded(jwt), now) == Invalid(TokenExpired)
        <==> jwt.payload.iat.value <= now + 60 && jwt.payload.exp.value < now - 5
    ensures ValidateToken(publicKey, Encoded(jwt), now) == Valid(jwt)
        <==> jwt.payload.iat.value <= now + 60 && jwt.payload.exp.value >= now - 5
  {
  }

  /** The same clock tolerances in `ValidateServiceAssertion`, once the checks before them pass. */
  lemma AssertionTimeWindow(publicKey: PublicKey, registeredScopes: set<string>, jwt: Token, now: int)
    requires ValidateTokenSignature(publicKey, Encoded(jwt)).Success?
    requires jwt.payload.iss.Some? && jwt.payload.iss.value != ""
    requires |jwt.payload.aud| > 0 && jwt.payload.aud[0] == AS_SOFTWARE_ISSUER
    requires jwt.payload.iat.Some? && jwt.payload.exp.Some?
    ensures ValidateServiceAssertion(publicKey, registeredScopes, Encoded(jwt), now) == Invalid(IatInFuture)
        <==> jwt.payload.iat.value > now + 60
    ensures ValidateServiceAssertion(publicKey, registeredScopes, Encoded(jwt), now) == Invalid(AssertionExpired)
        <==> jwt.payload.iat.value <= now + 60 && jwt.payload.exp.value < now - 5
  {
  }

  /**
   * Claims that pass the identity, audience, presence and scope checks (the
   * last when "s" is registered); only `iat` and `exp` vary.
   */
  function WellFormedClaims(iat: int, exp: int): Claims
  {
    Claims(None, Some(AS_SOFTWARE_ISSUER), None, [AS_SOFTWARE_ISSUER], Some("s"), Some(iat), Some(exp))
  }

  /** Boundary cases of the tolerances: 59 s ahead and 4 s behind pass, 61 s ahead and 6 s behind fail. */
  lemma TokenSkewBoundaries(privateKey: PrivateKey, keyId: string, now: int)
    ensures ValidateToken(PublicKeyOf(privateKey), SignToken(privateKey, keyId, WellFormedClaims(now + 59, now - 4)), now).Valid?
    ensures ValidateToken(PublicKeyOf(privateKey), SignToken(privateKey, keyId, WellFormedClaims(now + 61, now + 100)), now)
         == Invalid(IssuedInFuture)
    ensures ValidateToken(PublicKeyOf(privateKey), SignToken(privateKey, keyId, WellFormedClaims(now - 200, now - 6)), now)
         == Invalid(TokenExpired)
  {
  }

  /** The same boundary cases for service assertions, whose scope "s" is registered. */
  lemma AssertionSkewBoundaries(privateKey: PrivateKey, keyId: string, registeredScopes: set<string>, now: int)
    requires "s" in registeredScopes
    ensures ValidateServiceAssertion(PublicKeyOf(privateKey), registeredScopes,
              SignToken(privateKey, keyId, WellFormedClaims(now + 59, now - 4)), now).Valid?
    ensures ValidateServiceAssertion(PublicKeyOf(privateKey), registeredScopes,
              SignToken(privateKey, keyId, WellFormedClaims(now + 61, now + 100)), now) == Invalid(IatInFuture)
    ensures ValidateServiceAssertion(PublicKeyOf(privateKey), registeredScopes,
              SignToken(privateKey, keyId, WellFormedClaims(now - 200, now - 6)), now) == Invalid(AssertionExpired)
  {
    assert Split("s", SEPARATOR) == ["s"];
    assert ScopeSet("s") == {"s"};
  }

  /**
   * Fail-fast: `ValidateServiceAssertion` reports the error of the first
   * raising gate of `AssertionGates` and accepts exactly when none raises.
   */
  lemma ValidateServiceAssertionFailsFast(publicKey: PublicKey, registeredScopes: set<string>, jwt: Token, now: int)
    ensures ValidateServiceAssertion(publicKey, registeredScopes, Encoded(jwt), now)
         == Verdict(FirstFailure(AssertionGates(publicKey, registeredScopes, jwt, now)), jwt)
  {
    var identity := AssertionIdentityGates(publicKey, jwt);
    var presence := AssertionPresenceGates(jwt);
    var clock := AssertionClockGates(jwt, now);
    var scope := AssertionScopeGates(registeredScopes, jwt);
    FirstFailureAppend(identity, presence);
    FirstFailureAppend(identity + presence, clock);
    FirstFailureAppend(identity + presence + clock, scope);
    AssertionIdentityDecides(publicKey, registeredScopes, jwt, now);
    if FirstFailure(identity).None? {
      AssertionPresenceDecides(publicKey, registeredScopes, jwt, now);
      if FirstFailure(presence).None? {
        AssertionClockDecides(publicKey, registeredScopes, jwt, now);
        if FirstFailure(clock).None? {
          AssertionScopeDecides(publicKey, registeredScopes, jwt, now);
        }
      }
    }
  }

  lemma AssertionIdentityDecides(publicKey: PublicKey, registeredScopes: set<string>, jwt: Token, now: int)
    ensures FirstFailure(AssertionIdentityGates(publicKey, jwt)).Some? ==>
              ValidateServiceAssertion(publicKey, registeredScopes, Encoded(jwt), now)
              == Invalid(FirstFailure(AssertionIdentityGates(publicKey, jwt)).value)
  {
    var gs := AssertionIdentityGates(publicKey, jwt);
    if gs[0].Some? { FirstFailureIsEarliest(gs, 0); }
    else if gs[1].Some? { FirstFailureIsEarliest(gs, 1); }
    else if gs[2].Some? { FirstFailureIsEarliest(gs, 2); }
    else if gs[3].Some? { FirstFailureIsEarliest(gs, 3); }
  }

  lemma AssertionPresenceDecides(publicKey: PublicKey, registeredScopes: set<string>, jwt: Token, now: int)
    requires FirstFailure(AssertionIdentityGates(publicKey, jwt)).None?
    ensures FirstFailure(AssertionPresenceGates(jwt)).Some? ==>
              ValidateServiceAssertion(publicKey, registeredScopes, Encoded(jwt), now)
              == Invalid(FirstFailure(AssertionPresenceGates(jwt)).value)
  {
    var before := AssertionIdentityGates(publicKey, jwt);
    assert before[0].None? && before[1].None? && before[2].None? && before[3].None?;
    var gs := AssertionPresenceGates(jwt);
    if gs[0].Some? { FirstFailureIsEarliest(gs, 0); }
    else if gs[1].Some? { FirstFailureIsEarliest(gs, 1); }
  }

  lemma AssertionClockDecides(publicKey: PublicKey, registeredScopes: set<string>, jwt: Token, now: int)
    requires FirstFailure(AssertionIdentityGates(publicKey, jwt)).None?
    requires FirstFailure(AssertionPresenceGates(jwt)).None?
    ensures FirstFailure(AssertionClockGates(jwt, now)).Some? ==>
              ValidateServiceAssertion(publicKey, registeredScopes, Encoded(jwt), now)
              == Invalid(FirstFailure(AssertionClockGates(jwt, now)).value)
  {
    var before := AssertionIdentityGates(publicKey, jwt);
    assert before[0].None? && before[1].None? && before[2].None? && before[3].None?;
    var presence := AssertionPresenceGates(jwt);
    assert presence[0].None? && presence[1].None?;
    var gs := AssertionClockGates(jwt, now);
    if gs[0].Some? { FirstFailureIsEarliest(gs, 0); }
    else if gs[1].Some? { FirstFailureIsEarliest(gs, 1); }
    else if gs[2].Some? { FirstFailureIsEarliest(gs, 2); }
  }

  lemma AssertionScopeDecides(publicKey: PublicKey, registeredScopes: set<string>, jwt: Token, now: int)
    requires FirstFailure(AssertionIdentityGates(publicKey, jwt)).None?
    requires FirstFailure(AssertionPresenceGates(jwt)).None?
    requires FirstFailure(AssertionClockGates(jwt, now)).None?
    ensures ValidateServiceAssertion(publicKey, registeredScopes, Encoded(jwt), now)
         == Verdict(FirstFailure(AssertionScopeGates(registeredScopes, jwt)), jwt)
  {
    var before := AssertionIdentityGates(publicKey, jwt);
    assert before[0].None? && before[1].None? && before[2].None? && before[3].None?;
    var presence := AssertionPresenceGates(jwt);
    assert presence[0].None? && presence[1].None?;
    var clock := AssertionClockGates(jwt, now);
    assert clock[0].None? && clock[1].None? && clock[2].None?;
    var gs := AssertionScopeGates(registeredScopes, jwt);
    if gs[0].Some? { FirstFailureIsEarliest(gs, 0); }
    else if gs[2].Some? { FirstFailureIsEarliest(gs, 2); }
  }

  /** `ValidateServiceAssertion` accepts exactly the assertions that pass all its checks. */
  lemma ValidateServiceAssertionAccepts(publicKey: PublicKey, registeredScopes: set<string>, jwt: Token, now: int)
    ensures ValidateServiceAssertion(publicKey, registeredScopes, Encoded(jwt), now).Valid?
        <==> && ValidateTokenSignature(publicKey, Encoded(jwt)).Success?
             && jwt.payload.iss.Some? && jwt.payload.iss.value != ""
             && |jwt.payload.aud| > 0 && jwt.payload.aud[0] == AS_SOFTWARE_ISSUER
             && jwt.payload.iat.Some? && jwt.payload.exp.Some?
             && jwt.payload.iat.value <= now + 60
             && jwt.payload.exp.value >= now - 5
             && jwt.payload.exp.value - jwt.payload.iat.value <= 300
             && jwt.payload.scope.Some? && jwt.payload.scope.value != ""
             && ScopeSet(jwt.payload.scope.value) <= registeredScopes
  {
    if jwt.payload.scope.Some? {
      ScopeSetNonEmpty(jwt.payload.scope.value);
    }
  }

  /**
   * The audience checks, once signature and issuer pass: "requires aud" when
   * there is no audience or the first is empty, "invalid aud" when the first
   * is another non-empty string.
   */
  lemma AudienceGates(publicKey: PublicKey, registeredScopes: set<string>, jwt: Token, now: int)
    requires ValidateTokenSignature(publicKey, Encoded(jwt)).Success?
    requires jwt.payload.iss.Some? && jwt.payload.iss.value != ""
    ensures ValidateServiceAssertion(publicKey, registeredScopes, Encoded(jwt), now) == Invalid(RequiresAud)
        <==> |jwt.payload.aud| == 0 || jwt.payload.aud[0] == ""
    ensures ValidateServiceAssertion(publicKey, registeredScopes, Encoded(jwt), now) == Invalid(InvalidAud)
        <==> |jwt.payload.aud| > 0 && jwt.payload.aud[0] != "" && jwt.payload.aud[0] != AS_SOFTWARE_ISSUER
  {
  }

  /**
   * The TTL ceiling, once the checks before it pass: an assertion is refused
   * for its lifetime exactly when `exp - iat` exceeds 300 s, so 300 s itself
   * is allowed.
   */
  lemma TtlCeiling(publicKey: PublicKey, registeredScopes: set<string>, jwt: Token, now: int)
    requires ValidateTokenSignature(publicKey, Encoded(jwt)).Success?
    requires jwt.payload.iss.Some? && jwt.payload.iss.value != ""
    requires |jwt.payload.aud| > 0 && jwt.payload.aud[0] == AS_SOFTWARE_ISSUER
    requires jwt.payload.iat.Some? && jwt.payload.exp.Some?
    requires jwt.payload.iat.value <= now + 60 && jwt.payload.exp.value >= now - 5
    ensures ValidateServiceAssertion(publicKey, registeredScopes, Encoded(jwt), now) == Invalid(TtlTooLong)
        <==> jwt.payload.exp.value - jwt.payload.iat.value > 300
  {
  }

  /**
   * The scope checks, once everything before them passes: the assertion is
   * accepted exactly when its scope claim is non-empty and every piece of it
   * is registered. "requires at least one scope" is reported only for a
   * missing or empty claim: the second such check can never fire.
   */
  lemma ScopeGate(publicKey: PublicKey, registeredScopes: set<string>, jwt: Token, now: int)
    requires ValidateTokenSignature(publicKey, Encoded(jwt)).Success?
    requires jwt.payload.iss.Some? && jwt.payload.iss.value != ""
    requires |jwt.payload.aud| > 0 && jwt.payload.aud[0] == AS_SOFTWARE_ISSUER
    requires jwt.payload.iat.Some? && jwt.payload.exp.Some?
    requires jwt.payload.iat.value <= now + 60 && jwt.payload.exp.value >= now - 5
    requires jwt.payload.exp.value - jwt.payload.iat.value <= 300
    ensures ValidateServiceAssertion(publicKey, registeredScopes, Encoded(jwt), now) == Invalid(RequiresScope)
        <==> jwt.payload.scope.None? || jwt.payload.scope.value == ""
    ensures ValidateServiceAssertion(publicKey, registeredScopes, Encoded(jwt), now) == Invalid(UnregisteredScopes)
        <==> jwt.payload.scope.Some? && jwt.payload.scope.value != ""
             && exists p :: p in Split(jwt.payload.scope.value, SEPARATOR) && p !in registeredScopes
    ensures ValidateServiceAssertion(publicKey, registeredScopes, Encoded(jwt), now) == Valid(jwt)
        <==> jwt.payload.scope.Some? && jwt.payload.scope.value != ""
             && forall p :: p in Split(jwt.payload.scope.value, SEPARATOR) ==> p in registeredScopes
  {
    if jwt.payload.scope.Some? {
      ScopeSetNonEmpty(jwt.payload.scope.value);
    }
  }

  /** Requesting "a b" when only "a" is registered fails with "requested unregistered scopes". */
  lemma UnregisteredScopeExample(privateKey: PrivateKey, keyId: string, now: int)
    ensures
      var claims := Claims(None, Some("svc"), None, [AS_SOFTWARE_ISSUER], Some("a b"), Some(now), Some(now + 60));
      ValidateServiceAssertion(PublicKeyOf(privateKey), {"a"}, SignToken(privateKey, keyId, claims), now)
        == Invalid(UnregisteredScopes)
  {
    assert "a b"[1..] == " b";
    assert IndexOf(" b", SEPARATOR) == 0;
    assert IndexOf("a b", SEPARATOR) == 1;
    assert "a b"[..1] == "a";
    assert "a b"[2..] == "b";
    assert Split("b", SEPARATOR) == ["b"];
    assert Split("a b", SEPARATOR) == ["a", "b"];
    assert "b" in ScopeSet("a b");
  }

  /**
   * Round trip: a bearer token issued at `now` and checked with the matching
   * public key at time `at` is accepted, unchanged, exactly when
   * `now - 60 <= at <= now + expirationSeconds + 5`.
   */
  lemma IssueThenValidate(privateKey: PrivateKey, keyId: string, clientId: string, scopes: seq<string>,
                          expirationSeconds: int, now: int, jti: string, at: int)
    requires |scopes| > 0 && 0 < expirationSeconds <= MAX_EXPIRATION_SECONDS
    ensures
      var w := IssueToken(privateKey, keyId, clientId, scopes, expirationSeconds, now, jti).value;
      && (ValidateToken(PublicKeyOf(privateKey), w, at).Valid? <==> now - 60 <= at <= now + expirationSeconds + 5)
      && (ValidateToken(PublicKeyOf(privateKey), w, at).Valid? ==> Encoded(ValidateToken(PublicKeyOf(privateKey), w, at).token) == w)
  {
  }

  /**
   * Neither validator accepts a token that the holder of the private half
   * of `publicKey` did not sign exactly as presented.
   */
  lemma AcceptedTokensAreSigned(publicKey: PublicKey, registeredScopes: set<string>, w: Wire, now: int)
    requires ValidateToken(publicKey, w, now).Valid?
          || ValidateServiceAssertion(publicKey, registeredScopes, w, now).Valid?
    ensures w.Encoded? && w.token.header.alg == RS512
    ensures exists key: PrivateKey :: PublicKeyOf(key) == publicKey && w == SignToken(key, w.token.header.kid, w.token.payload)
  {
  }

  /** A bearer token checked with a public key other than its signer's fails on the signature. */
  lemma IssuedTokenWrongKey(privateKey: PrivateKey, keyId: string, clientId: string, scopes: seq<string>,
                            expirationSeconds: int, now: int, jti: string, publicKey: PublicKey, at: int)
    requires |scopes| > 0 && 0 < expirationSeconds <= MAX_EXPIRATION_SECONDS
    requires publicKey != PublicKeyOf(privateKey)
    ensures ValidateToken(publicKey, IssueToken(privateKey, keyId, clientId, scopes, expirationSeconds, now, jti).value, at)
         == Invalid(InvalidTokenSignature(SignatureMismatch))
  {
  }

  /** A caller can tell the two issuer failures apart by their text. */
  lemma IssueMessagesIdentifyErrors(e1: IssueError, e2: IssueError)
    ensures e1.Message() == e2.Message() <==> e1 == e2
  {
  }

  /**
   * Each failure of `ValidateToken` has its own text; only the cause of a
   * signature failure is not visible in it.
   */
  lemma TokenMessagesIdentifyErrors(e1: TokenError, e2: TokenError)
    ensures e1.Message() == e2.Message() <==> e1.Rank() == e2.Rank()
  {
  }

  /**
   * Each failure of `ValidateServiceAssertion` has its own text; only the
   * cause of a signature failure is not visible in it.
   */
  lemma AssertionMessagesIdentifyErrors(e1: AssertionError, e2: AssertionError)
    ensures e1.Message() == e2.Message() <==> e1.Rank() == e2.Rank()
  {
    assert e1.Message() == e2.Message() <==> e1.Detail() == e2.Detail();
  }

  /**
   * Tampering is reported as a signature error and never as another error:
   * whenever the signature check fails, both validators fail with exactly
   * that signature error, whatever the claims and the clock.
   */
  lemma SignatureFailureDominates(publicKey: PublicKey, registeredScopes: set<string>, jwt: Token, now: int)
    requires ValidateTokenSignature(publicKey, Encoded(jwt)).Failure?
    ensures ValidateToken(publicKey, Encoded(jwt), now)
         == Invalid(InvalidTokenSignature(ValidateTokenSignature(publicKey, Encoded(jwt)).error))
    ensures ValidateServiceAssertion(publicKey, registeredScopes, Encoded(jwt), now)
         == Invalid(AssertionInvalidSignature(ValidateTokenSignature(publicKey, Encoded(jwt)).error))
  {
  }

  /**
   * A signature moved onto another header or payload makes both validators
   * fail with a signature error under the signer's public key.
   */
  lemma TamperedTokenFailsValidation(privateKey: PrivateKey, keyId: string, claims: Claims, forged: Token,
                                     registeredScopes: set<string>, now: int)
    requires forged.signature == ReadToken(SignToken(privateKey, keyId, claims)).value.signature
    requires forged.header != Header(RS512, keyId) || forged.payload != claims
    ensures ValidateToken(PublicKeyOf(privateKey), Encoded(forged), now).Invalid?
    ensures ValidateToken(PublicKeyOf(privateKey), Encoded(forged), now).error.InvalidTokenSignature?
    ensures ValidateServiceAssertion(PublicKeyOf(privateKey), registeredScopes, Encoded(forged), now).Invalid?
    ensures ValidateServiceAssertion(PublicKeyOf(privateKey), registeredScopes, Encoded(forged), now).error.AssertionInvalidSignature?
  {
    TamperedTokenRejected(privateKey, keyId, claims, forged);
    SignatureFailureDominates(PublicKeyOf(privateKey), registeredScopes, forged, now);
  }

  /**
   * Round trip: a service assertion from a non-empty client id, for
   * space-free scope names that are all registered and whose joined claim
   * is not empty, is accepted with the matching public key exactly when
   * `now - 60 <= at <= now + 65`. Empty names beside others are fine.
   */
  lemma {:induction false} AssertThenValidate(privateKey: PrivateKey, keyId: string, clientId: string, scopes: seq<string>,
                           registeredScopes: set<string>, now: int, jti: string, at: int)
    requires |scopes| > 0 && clientId != ""
    requires forall p :: p in scopes ==> SEPARATOR !in p && p in registeredScopes
    requires Join(scopes, SEPARATOR) != ""
    ensures
      var w := ServiceAuthenticationAssertion(privateKey, keyId, clientId, scopes, now, jti).value;
      (ValidateServiceAssertion(PublicKeyOf(privateKey), registeredScopes, w, at).Valid? <==> now - 60 <= at <= now + 65)
  {
    ScopeSetOfJoin(scopes);
    var w := ServiceAuthenticationAssertion(privateKey, keyId, clientId, scopes, now, jti).value;
    var jwt := ReadToken(w).value;
    assert w == Encoded(jwt);
    assert jwt.payload.scope == Some(Join(scopes, SEPARATOR));
    assert ScopeSet(jwt.payload.scope.value) <= registeredScopes;
    ValidateServiceAssertionAccepts(PublicKeyOf(privateKey), registeredScopes, jwt, at);
  }

  /** Within its time window, an assertion naming an unregistered scope fails with "requested unregistered scopes". */
  lemma {:induction false} AssertUnregisteredScope(privateKey: PrivateKey, keyId: string, clientId: string, scopes: seq<string>,
                                registeredScopes: set<string>, now: int, jti: string, at: int)
    requires |scopes| > 0 && clientId != ""
    requires forall p :: p in scopes ==> SEPARATOR !in p
    requires Join(scopes, SEPARATOR) != ""
    requires exists p :: p in scopes && p !in registeredScopes
    requires now - 60 <= at <= now + 65
    ensures
      var w := ServiceAuthenticationAssertion(privateKey, keyId, clientId, scopes, now, jti).value;
      ValidateServiceAssertion(PublicKeyOf(privateKey), registeredScopes, w, at) == Invalid(UnregisteredScopes)
  {
    ScopeSetOfJoin(scopes);
    var w := ServiceAuthenticationAssertion(privateKey, keyId, clientId, scopes, now, jti).value;
    var jwt := ReadToken(w).value;
    assert w == Encoded(jwt);
    assert jwt.payload.scope == Some(Join(scopes, SEPARATOR));
    assert !(ScopeSet(jwt.payload.scope.value) <= registeredScopes);
    ScopeGate(PublicKeyOf(privateKey), registeredScopes, jwt, at);
  }

  /** The scope list `["", "a"]`, all registered, joins to " a" and is accepted inside its window. */
  lemma EmptyNameBesideOthers(privateKey: PrivateKey, keyId: string, clientId: string, now: int, jti: string, at: int)
    requires clientId != ""
    requires now - 60 <= at <= now + 65
    ensures
      var w := ServiceAuthenticationAssertion(privateKey, keyId, clientId, ["", "a"], now, jti).value;
      ValidateServiceAssertion(PublicKeyOf(privateKey), {"", "a"}, w, at).Valid?
  {
    assert Join(["", "a"], SEPARATOR) == " a";
    AssertThenValidate(privateKey, keyId, clientId, ["", "a"], {"", "a"}, now, jti, at);
  }

  /**
   * The issuer only refuses an empty scope collection: an assertion for the
   * single scope "" is issued, and its own validator refuses it for having
   * no scope.
   */
  lemma AssertEmptyScopeName(privateKey: PrivateKey, keyId: string, clientId: string,
                             registeredScopes: set<string>, now: int, jti: string, at: int)
    requires clientId != ""
    requires now - 60 <= at <= now + 65
    ensures ServiceAuthenticationAssertion(privateKey, keyId, clientId, [""], now, jti).Success?
    ensures
      var w := ServiceAuthenticationAssertion(privateKey, keyId, clientId, [""], now, jti).value;
      ValidateServiceAssertion(PublicKeyOf(privateKey), registeredScopes, w, at) == Invalid(RequiresScope)
  {
  }

  /** An assertion issued for the empty client id is refused with "requires iss". */
  lemma AssertEmptyClientId(privateKey: PrivateKey, keyId: string, scopes: seq<string>,
                            registeredScopes: set<string>, now: int, jti: string, at: int)
    requires |scopes| > 0
    ensures
      var w := ServiceAuthenticationAssertion(privateKey, keyId, "", scopes, now, jti).value;
      ValidateServiceAssertion(PublicKeyOf(privateKey), registeredScopes, w, at) == Invalid(RequiresIss)
  {
  }
}
