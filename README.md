# AS-Auth token issuance and validation, modelled in Dafny

This project models the core of the AS-Auth library (`src/AS-Auth/Auth.cs`):

- `IssueToken` issues a bearer token. It checks its arguments, builds the claim set (`jti`, `iss`, `sub`, `scope`, `iat`, `exp`) and signs it with RSA-SHA512 under a caller-chosen key id.
- `ServiceAuthenticationAssertion` issues a 60-second service assertion. Its claims are `jti`, `aud`, `iss`, `scope`, `iat` and `exp`.
- `ValidateToken` and `ValidateServiceAssertion` check a token string against a public key and the current time. Each is a fixed chain of early-return guards: the first failing guard is reported, and a token that passes every guard is returned as decoded.

Every operation is a pure function (the one side effect of signing is listed under "## Left out"):

- The clock (`DateTimeOffsetProvider.UtcNow`) becomes a `now` parameter in whole Unix seconds.
- The token id (`GuidProvider.NewGuid()`) becomes a `jti` parameter.
- RSA-SHA512 is modelled as perfect cryptography. A signature is the symbolic term `RsaSignature(pair, header, payload)`: it names the key pair that made it and the exact header and payload it covers. Verifying with a public key recomputes that term from the key's pair.

Files:

- `wrappers.dfy`: `Option` and `Result`.
- `scopes.dfy`: `string.Join(" ", …)` and `Split(' ')` on the scope claim, with their round trips.
- `jwt.dfy`: keys, header, claims, symbolic signatures, and `SignToken`, `ReadToken` and `ValidateTokenSignature`.
- `gates.dfy`: `FirstFailure`, a reference definition of a fail-fast chain as an ordered list of gates.
- `auth.dfy`: the issuers, the validators with their exception messages, and each validator's gate list.
- `auth_laws.dfy`: the properties.

## Behaviour notes

Behaviour of the code worth knowing:

- **Malformed token strings.** `ReadToken` runs before the signature check and outside its `Try` (Auth.cs:121 and 164). A malformed string therefore escapes both validators as an exception; it is not returned as an "invalid signature" failure. The model gives it a separate outcome, `Unreadable`. Inside `ValidateTokenSignature` a malformed string is an ordinary failure (`MalformedToken`), but the validators never reach that case.
- **The second "requires at least one scope" check** (Auth.cs:223-226) can never fire. `Split(' ')` always yields at least one piece (`Scopes.Split`, `Scopes.ScopeSetNonEmpty`), and `AuthLaws.ScopeGate` shows the error is reported only for a missing or empty scope claim.
- **Space-free scopes are not enforced.** Scope names are meant to contain no spaces, but the issuers do not check this. `Split` keeps empty pieces. So a scope set such as `{""}` is issued, and its own validator refuses it (`AuthLaws.AssertEmptyScopeName`). The claims each issuer builds hold for every accepted request. Recovering the scope set from the claim needs only space-free names. The issue-then-validate round trip for assertions needs, beyond that, only a non-empty joined claim: an empty name beside others, as in `["", "a"]`, round-trips (`AuthLaws.EmptyNameBesideOthers`); only the single name `""` does not.
- **Absent `iat` or `exp`.** The null checks on `IssuedAt` and `ValidTo` are dead, because `DateTime` is a value type. An absent claim reads as `DateTime.MinValue`, which the model writes as `None`.

## Model

| member | source | states |
|---|---|---|
| `Auth.IssueToken` | src/AS-Auth/Auth.cs:24-49 | fails exactly when the scopes are empty or the expiration is outside (0, 3600]; the scopes error takes precedence; otherwise the token verifies under the signer's public key |
| `AuthLaws.IssuedTokenClaims` | src/AS-Auth/Auth.cs:35-46 | for every accepted request: header RS512 and the key id, `jti`, `iss` = "auth.as-software.com", `sub` = client id, no `aud`, `scope` = the space-joined scopes, `iat` = now and `exp` = now + the expiration; when no scope name holds a space, the scope claim splits back to the scopes and requests exactly their set |
| `Auth.ServiceAuthenticationAssertion` | src/AS-Auth/Auth.cs:51-72 | fails exactly when the scopes are empty; otherwise the assertion verifies under the signer's public key |
| `AuthLaws.ServiceAssertionClaims` | src/AS-Auth/Auth.cs:58-68 | for every non-empty scope set: header RS512 and the key id, `jti`, `aud` = ["auth.as-software.com"], `iss` = client id, no `sub`, `scope` = the space-joined scopes, `iat` = now and `exp - iat` exactly 60; when no scope name holds a space, the scope claim requests exactly the scope set |
| `Jwt.SignToken` | src/AS-Auth/Auth.cs:74-86 | the token decodes to header (RS512, key id) and exactly the given claims, and verifies under the signer's public key |
| `Jwt.ReadToken` | src/AS-Auth/Auth.cs:88-89 | decoding fails exactly on a malformed string |
| `Jwt.ValidateTokenSignature` | src/AS-Auth/Auth.cs:91-116 | succeeds exactly when the token is well formed, uses RS512 and carries the signature the matching private key makes over its header and payload; it then returns the decoded token |
| `Jwt.SignatureBindsKeyPair` | src/AS-Auth/Auth.cs:91-116 | a signed token verifies under a public key if and only if that key is the signer's own |
| `Jwt.TamperedTokenRejected` | src/AS-Auth/Auth.cs:91-116 | a signed token's signature attached to a different header or payload fails verification |
| `Jwt.ReplacedSignatureRejected` | src/AS-Auth/Auth.cs:91-116 | replacing a signed token's signature with any other value fails verification |
| `AuthLaws.SignatureFailureDominates` | src/AS-Auth/Auth.cs:121-127 | whenever the signature check fails, `ValidateToken` and `ValidateServiceAssertion` fail with exactly that signature error, whatever the claims and the clock |
| `AuthLaws.TamperedTokenFailsValidation` | src/AS-Auth/Auth.cs:121-127 | a signature moved onto another header or payload makes both validators fail with their signature error under the signer's key, never with another error |
| `Auth.IssueError.Message` | src/AS-Auth/Auth.cs:26-33 | both issuer failures read "Token …"; only the missing-scopes failure reads "Token scopes must be specified (Parameter 'scopes')", the `ArgumentException` text with the parameter name .NET appends |
| `AuthLaws.IssueMessagesIdentifyErrors` | src/AS-Auth/Auth.cs:26-33 | the two issuer failures have different texts |
| `Auth.TokenError.Message` | src/AS-Auth/Auth.cs:126-155 | only a signature failure reads "Invalid token signature" |
| `AuthLaws.TokenMessagesIdentifyErrors` | src/AS-Auth/Auth.cs:126-155 | two token failures have the same text iff they are the same check; the signature failure's cause is not in the text |
| `Auth.AssertionError.Message` | src/AS-Auth/Auth.cs:169-229 | every assertion failure text begins with "Service JWT assertion" |
| `AuthLaws.AssertionMessagesIdentifyErrors` | src/AS-Auth/Auth.cs:169-229 | two assertion failures have the same text iff they are the same check |
| `Auth.ValidateToken` | src/AS-Auth/Auth.cs:118-159 | a malformed string escapes as a read failure; an accepted token is the decoded token, unchanged |
| `Auth.TokenGates` | src/AS-Auth/Auth.cs:123-158 | six gates in the order the source checks them; the gate at position i can only raise the i-th failure kind, and the first raises exactly when the signature check fails |
| `Gates.FirstFailure` | src/AS-Auth/Auth.cs:123-158 | a guard chain passes exactly when every gate passes, and otherwise reports the error of one of its gates |
| `Gates.FirstFailureIsEarliest` | src/AS-Auth/Auth.cs:123-158 | when gate i fails and every earlier gate passes, the chain reports gate i's error (only the first failure is reported) |
| `Gates.FirstFailureAppend` | src/AS-Auth/Auth.cs:161-233 | a chain made of two chains reports the first chain's failure if there is one, and otherwise the second chain's result |
| `AuthLaws.ValidateTokenFailsFast` | src/AS-Auth/Auth.cs:123-158 | `ValidateToken` returns the first failing gate of the ordered list signature, issuer, iat present, exp present, iat not in the future, exp not past; with no failure it returns the token |
| `AuthLaws.ValidateTokenAccepts` | src/AS-Auth/Auth.cs:123-158 | a token is accepted iff its signature verifies, `iss` is the constant, `iat` and `exp` are present, `iat <= now + 60` and `exp >= now - 5`; the token is returned unchanged |
| `AuthLaws.TokenTimeWindow` | src/AS-Auth/Auth.cs:144-156 | once signature, issuer and timestamps pass: "issued at must be in the past" iff `iat > now + 60`; "expired" iff `iat` passes and `exp < now - 5`; accepted iff both bounds hold |
| `AuthLaws.TokenSkewBoundaries` | src/AS-Auth/Auth.cs:146-156 | `iat` 59 s ahead with `exp` 4 s behind is accepted; `iat` 61 s ahead fails as issued in the future; `exp` 6 s behind fails as expired |
| `Auth.ValidateServiceAssertion` | src/AS-Auth/Auth.cs:161-233 | a malformed string escapes as a read failure; an accepted assertion is the decoded token, unchanged, and every scope it requests is registered |
| `Auth.AssertionGates` | src/AS-Auth/Auth.cs:166-232 | twelve gates in the order the source checks them; the first ten raise only their own failure kind in that order, the eleventh (the second "requires at least one scope" check) never raises, the twelfth raises only "requested unregistered scopes" |
| `AuthLaws.ValidateServiceAssertionFailsFast` | src/AS-Auth/Auth.cs:166-232 | `ValidateServiceAssertion` returns the first failing gate of its ordered list of twelve checks (signature, iss, aud required, aud value, iat, exp, iat skew, exp skew, TTL, scope present, at least one split scope, scopes registered), of which the eleventh, the second "requires at least one scope" check, never raises; with no failure it returns the token |
| `AuthLaws.ValidateServiceAssertionAccepts` | src/AS-Auth/Auth.cs:166-232 | an assertion is accepted iff the signature verifies, `iss` is non-empty, the first `aud` is the constant, both timestamps are present and within the skews, `exp - iat <= 300`, and the scope claim is non-empty with every piece registered |
| `AuthLaws.AudienceGates` | src/AS-Auth/Auth.cs:177-185 | "requires aud" iff there is no audience or the first is empty; "invalid aud" iff the first is non-empty and not the constant |
| `AuthLaws.AssertionTimeWindow` | src/AS-Auth/Auth.cs:197-209 | the assertion validator uses the same bounds as the token validator: "iat in the past" iff `iat > now + 60`, "expired" iff `iat` passes and `exp < now - 5` |
| `AuthLaws.AssertionSkewBoundaries` | src/AS-Auth/Auth.cs:199-209 | 59 s ahead with 4 s behind is accepted, 61 s ahead and 6 s behind are refused with the assertion's own errors |
| `AuthLaws.TtlCeiling` | src/AS-Auth/Auth.cs:211-214 | once the earlier checks pass, the TTL error is reported iff `exp - iat > 300`, so exactly 300 s is allowed |
| `AuthLaws.ScopeGate` | src/AS-Auth/Auth.cs:216-230 | once the earlier checks pass: "requires at least one scope" iff the claim is missing or empty; "unregistered scopes" iff some piece is unregistered; accepted iff every piece is registered |
| `AuthLaws.UnregisteredScopeExample` | src/AS-Auth/Auth.cs:222-230 | requesting "a b" with only "a" registered fails with "requested unregistered scopes" |
| `Scopes.Join` | src/AS-Auth/Auth.cs:36 | no scopes join to the empty string and a joined list begins with its first part; `Scopes.SplitJoin` and `Scopes.JoinSplit` relate it to `Scopes.Split` |
| `Scopes.ScopeSet` | src/AS-Auth/Auth.cs:222 | no requested scope name holds a space, and a claim without a space requests exactly itself |
| `Scopes.Split` | src/AS-Auth/Auth.cs:222 | splitting always yields at least one piece |
| `Scopes.SplitPiecesLackSeparator` | src/AS-Auth/Auth.cs:222 | no piece of a split contains the separator |
| `Scopes.ScopeSetNonEmpty` | src/AS-Auth/Auth.cs:222-226 | every scope claim value requests a non-empty set |
| `Scopes.SplitJoin` | src/AS-Auth/Auth.cs:36 | splitting a space-joined non-empty list of space-free names gives the list back |
| `Scopes.JoinSplit` | src/AS-Auth/Auth.cs:222 | joining the pieces of a split gives the original string back |
| `Scopes.ScopeSetOfJoin` | src/AS-Auth/Auth.cs:59 | the joined scope claim requests exactly the set of the scope names, provided none holds a space (empty names included) |
| `AuthLaws.AcceptedTokensAreSigned` | src/AS-Auth/Auth.cs:118-170 | neither validator accepts a token unless the private half of the given key signed exactly that header and payload |
| `AuthLaws.IssueThenValidate` | src/AS-Auth/Auth.cs:24-158 | a token issued at t is accepted with the matching key at time `at` iff `t - 60 <= at <= t + expiration + 5`, and the accepted token is the one issued |
| `AuthLaws.IssuedTokenWrongKey` | src/AS-Auth/Auth.cs:118-127 | checked with another public key, an issued token fails with a signature mismatch |
| `AuthLaws.AssertThenValidate` | src/AS-Auth/Auth.cs:51-233 | an assertion from a non-empty client id for registered, space-free scope names whose joined claim is not empty (empty names beside others allowed) is accepted with the matching key iff `t - 60 <= at <= t + 65` |
| `AuthLaws.AssertUnregisteredScope` | src/AS-Auth/Auth.cs:51-233 | inside that window, an assertion for space-free scope names with a non-empty joined claim, naming an unregistered scope, fails with "requested unregistered scopes" |
| `AuthLaws.EmptyNameBesideOthers` | src/AS-Auth/Auth.cs:57-227 | the scopes `["", "a"]` join to " a", split back to `{"", "a"}`, and with both registered the assertion is accepted inside its window |
| `AuthLaws.AssertEmptyScopeName` | src/AS-Auth/Auth.cs:53-226 | the scope set {""} is accepted by the issuer, and inside the window its assertion is refused with "requires at least one scope" |
| `AuthLaws.AssertEmptyClientId` | src/AS-Auth/Auth.cs:51-175 | an assertion issued for the empty client id is refused with "requires iss" |

## Left out

- Key handling: `Fingerprint`, `GetPublicKey` and `GetPrivateKey` (Auth.cs:15-22) and all of `src/AS-Auth/KeyUtil.cs`. These are PEM parsing, RSA key import and a SHA-256/base64 fingerprint, done entirely by library calls. Keys are modelled as the two halves of an abstract key pair.
- The JWT compact serialisation: base64url, JSON, and the extra header fields the library writes. A token string either decodes to one token or is malformed. The claims form a record, so their order in the payload is not modelled.
- `Jwt.SignToken`: does not capture that the source writes `keyId` into the caller's own `RsaSecurityKey` (the nested initializer `Key = { KeyId = keyId }` at Auth.cs:76-79) and reads it back for the header at Auth.cs:81. After either issuer returns, the caller's key object holds the last key id used. Two concurrent calls that share one key object with different key ids can therefore put the other call's `kid` into a header. The model signs with the key id passed in and leaves the key unchanged.
- `Jwt.ValidateTokenSignature`: accepts only RS512 headers. The library would also accept other RSA algorithms the key supports, but this core only ever signs with RS512.
- `src/AS-Auth/DateTimeOffsetProvider.cs` and `src/AS-Auth/GuidProvider.cs`: the global set/reset hooks are replaced by the `now` and `jti` parameters.
- Sub-second time. The validators compare against a `DateTimeOffset` with a fractional part. With a fractional part, an `exp` exactly 5 s behind the whole second is refused, but the model accepts it because `now` is whole seconds.
- Library clamping of non-positive `iat`/`exp` values to the Unix epoch, and overflow at the ends of the `DateTime` range.
- Null arguments. A null scope set gets the same error as an empty one in the source. Dafny values are never null.
- The iteration order of the `HashSet` scopes. The issuers take the scopes as a sequence in that order; the validators use only the set the claim requests.
- A `scope` claim that holds a JSON array. The library would expose it as several claims, of which the first is read. The model has one scope string.
- `src/server.js`: an HTTP/SSE demo server with no token logic.
