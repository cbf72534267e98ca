/**
 * Signed JSON Web Tokens as this core uses them (Auth.cs SignToken, ReadToken,
 * ValidateTokenSignature). RSA-SHA512 is modelled as perfect cryptography: a
 * signature is the symbolic term naming the key pair that made it and the
 * exact header and payload it covers, and verifying recomputes that term from
 * the public half of the pair. The compact `header.payload.signature` text
 * itself is not modelled: a token string either decodes to one token or is
 * malformed.
 */
module Jwt {
  import opened Wrappers

  /** Header `alg` value the signing credentials write for RSA-SHA512. */
  const RS512: string := "RS512"

  /** The two halves of one RSA key pair, identified by the pair they belong to. */
  datatype PrivateKey = PrivateKey(pair: nat)
  datatype PublicKey = PublicKey(pair: nat)

  function PublicKeyOf(key: PrivateKey): PublicKey
  {
    PublicKey(key.pair)
  }

  datatype Header = Header(alg: string, kid: string)

  /**
   * The registered claims this core reads or writes. An absent `iat`/`exp`
   * is `None`: the token object reports it as `DateTime.MinValue`.
   * `aud` lists the audiences in order (empty when absent).
   */
  datatype Claims = Claims(
    jti: Option<string>,
    iss: Option<string>,
    sub: Option<string>,
    aud: seq<string>,
    scope: Option<string>,
    iat: Option<int>,
    exp: Option<int>)

  /** A signature is either the one a key pair made over a header and payload, or other bytes. */
  datatype Signature =
    | RsaSignature(pair: nat, header: Header, payload: Claims)
    | OtherBytes(bytes: seq<bv8>)

  datatype Token = Token(header: Header, payload: Claims, signature: Signature)

  /** A token string: one that decodes to a token, or one that does not. */
  datatype Wire = Encoded(token: Token) | Malformed(text: string)

  datatype SignatureError =
    | MalformedToken
    | AlgorithmNotSupported
    | SignatureMismatch

  /** The signature the holder of `key` computes over `header` and `payload`. */
  function Sign(key: PrivateKey, header: Header, payload: Claims): Signature
  {
    RsaSignature(key.pair, header, payload)
  }

  /** Sign `claims` with RSA-SHA512 under key id `keyId`. */
  function SignToken(privateKey: PrivateKey, keyId: string, claims: Claims): (w: Wire)
    ensures ReadToken(w).Some?
    ensures ReadToken(w).value.header == Header(RS512, keyId)
    ensures ReadToken(w).value.payload == claims
    ensures ValidateTokenSignature(PublicKeyOf(privateKey), w) == Success(ReadToken(w).value)
  {
    var header := Header(RS512, keyId);
    Encoded(Token(header, claims, Sign(privateKey, header, claims)))
  }

  /** `ReadJwtToken`: decodes without any check; on a malformed string it throws. */
  function ReadToken(w: Wire): (t: Option<Token>)
    ensures t.Some? <==> w.Encoded?
  {
    match w
    case Encoded(token) => Some(token)
    case Malformed(_) => None
  }

  /**
   * Signature check only: issuer, audience and lifetime are not looked at.
   * A malformed string is a failure here (the check runs inside a `Try`).
   */
  function ValidateTokenSignature(publicKey: PublicKey, w: Wire): (r: Result<Token, SignatureError>)
    ensures r.Success? ==> ReadToken(w) == Some(r.value)
    ensures r.Success? <==>
      && w.Encoded?
      && w.token.header.alg == RS512
      && exists key: PrivateKey :: PublicKeyOf(key) == publicKey
                                && w.token.signature == Sign(key, w.token.header, w.token.payload)
  {
    match w
    case Malformed(_) => Failure(MalformedToken)
    case Encoded(token) =>
      if token.header.alg != RS512 then Failure(AlgorithmNotSupported)
      else if token.signature != RsaSignature(publicKey.pair, token.header, token.payload) then
        Failure(SignatureMismatch)
      else
        assert PublicKeyOf(PrivateKey(publicKey.pair)) == publicKey;
        Success(token)
  }

  /** A signed token verifies under a public key exactly when that key is the signer's own. */
  lemma SignatureBindsKeyPair(privateKey: PrivateKey, keyId: string, claims: Claims, publicKey: PublicKey)
    ensures ValidateTokenSignature(publicKey, SignToken(privateKey, keyId, claims)).Success?
        <==> publicKey == PublicKeyOf(privateKey)
  {
  }

  /**
   * Tampering: a token that carries a signed token's signature but a
   * different header or payload fails the signature check.
   */
  lemma TamperedTokenRejected(privateKey: PrivateKey, keyId: string, claims: Claims, forged: Token)
    requires forged.signature == ReadToken(SignToken(privateKey, keyId, claims)).value.signature
    requires forged.header != Header(RS512, keyId) || forged.payload != claims
    ensures ValidateTokenSignature(PublicKeyOf(privateKey), Encoded(forged)).Failure?
  {
  }

  /** Replacing the signature of a signed token by any other value fails the signature check. */
  lemma ReplacedSignatureRejected(privateKey: PrivateKey, keyId: string, claims: Claims, sig: Signature)
    requires sig != ReadToken(SignToken(privateKey, keyId, claims)).value.signature
    ensures ValidateTokenSignature(PublicKeyOf(privateKey), Encoded(Token(Header(RS512, keyId), claims, sig))).Failure?
  {
  }
}
