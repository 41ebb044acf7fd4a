/**
 * Access and admin tokens (PyHLS/utils.py, and its byte-identical copy
 * utils.py): JSON Web Tokens (RFC 7519) signed with HMAC SHA-256 (section
 * 3.2 of RFC 7518). Hashing and signing are kept as uninterpreted terms:
 * a digest or a signature is equal to another exactly when everything it
 * was computed from is, which is how collision resistance and
 * unforgeability are taken here. Time is integer seconds.
 */
module Tokens {
  import opened Options
  import opened Text

  /** `hashlib.sha256(value.encode()).hexdigest()`, as the term it is computed from. */
  datatype Digest = Sha256Hex(preimage: string)

  /** An HMAC key: the configured secret as text, or a hex digest used as key text. */
  datatype Key = SecretText(text: string) | DigestText(digest: Digest)

  /** The process-wide `SECRET_KEY` and `ALGORITHM` (default "HS256"), fixed at start-up. */
  datatype Config = Config(secretKey: string, algorithm: string)

  /**
   * A token payload. Every claim either server-issued kind writes is here;
   * a claim a token does not carry is `None`, which is what `payload.get`
   * yields for it.
   */
  datatype Claims = Claims(
    mediaId: Option<string>,
    accessKeyHash: Option<Digest>,
    admin: Option<bool>,
    adminKeyHash: Option<Digest>,
    iat: int,
    exp: Option<int>,
    jti: string,
    tokenType: Option<string>)

  /** The signature of a payload under a key with an algorithm, as an unforgeable term. */
  datatype Signature = Mac(alg: string, key: Key, claims: Claims)

  /** A JWS in compact form once its three parts are decoded (section 7.1 of RFC 7515). */
  datatype Jws = Jws(alg: string, claims: Claims, signature: Signature)

  /** What `jwt.decode` makes of a token string: a decoded JWS, or text that is none. */
  datatype Token = Compact(jws: Jws) | Malformed(text: string)

  /** The exceptions `jwt.decode` raises; all are subclasses of `jwt.InvalidTokenError`. */
  datatype JwtError = DecodeError | InvalidAlgorithm | InvalidSignature | ExpiredSignature

  const AccessType: string := "access"
  const AdminType: string := "admin"

  function HashString(value: string): Digest {
    Sha256Hex(value)
  }

  function Sign(alg: string, key: Key, claims: Claims): Signature {
    Mac(alg, key, claims)
  }

  /** `jwt.encode(payload, key, algorithm=alg)`. */
  function JwtEncode(claims: Claims, key: Key, alg: string): Jws
  {
    Jws(alg, claims, Sign(alg, key, claims))
  }

  /**
   * `jwt.decode(token, key, algorithms=[alg])`: the header's algorithm must
   * be the allowed one, the signature must be the one `key` gives the
   * payload, and a payload with `exp` is expired once `exp <= now`.
   */
  function JwtDecode(token: Token, key: Key, alg: string, now: int): (r: Result<Claims, JwtError>)
    ensures r.Ok? <==> token.Compact? && token.jws.alg == alg
                       && token.jws.signature == Sign(alg, key, token.jws.claims)
                       && (token.jws.claims.exp.Some? ==> now < token.jws.claims.exp.value)
    ensures r.Ok? ==> r.value == token.jws.claims
  {
    match token
    case Malformed(_) => Err(DecodeError)
    case Compact(jws) =>
      if jws.alg != alg then Err(InvalidAlgorithm)
      else if jws.signature != Sign(alg, key, jws.claims) then Err(InvalidSignature)
      else if jws.claims.exp.Some? && jws.claims.exp.value <= now then Err(ExpiredSignature)
      else Ok(jws.claims)
  }

  /** `generate_signing_key`: the hex SHA-256 of `secret + ":" + access_key`. */
  function GenerateSigningKey(secretKey: string, accessKey: string): Key {
    DigestText(HashString(secretKey + ":" + accessKey))
  }

  /** `create_access_token`, with the clock reading `now` and the random `jti` as parameters. */
  function CreateAccessToken(cfg: Config, mediaId: string, accessKey: string, expiryMinutes: int,
                             now: int, jti: string): (t: Jws)
    ensures forall at :: VerifyAccessToken(cfg, Compact(t), mediaId, accessKey, at)
                         <==> at < now + 60 * expiryMinutes
    ensures t.claims.iat == now && t.claims.exp == Some(now + 60 * expiryMinutes) && t.claims.jti == jti
  {
    var claims := Claims(
      mediaId := Some(mediaId),
      accessKeyHash := Some(HashString(accessKey)),
      admin := None,
      adminKeyHash := None,
      iat := now,
      exp := Some(now + 60 * expiryMinutes),
      jti := jti,
      tokenType := Some(AccessType));
    JwtEncode(claims, GenerateSigningKey(cfg.secretKey, accessKey), cfg.algorithm)
  }

  /**
   * `verify_access_token`: decoding under the resource's derived key must
   * succeed, then the payload must be an access token, for the expected
   * media id, carrying the hash of the access key. Every exception ends in
   * `False`, so the function is total.
   */
  function VerifyAccessToken(cfg: Config, token: Token, expectedMediaId: string, accessKey: string,
                             now: int): (ok: bool)
    ensures ok ==> token.Compact?
                   && token.jws.signature == Sign(cfg.algorithm, GenerateSigningKey(cfg.secretKey, accessKey), token.jws.claims)
                   && token.jws.claims.tokenType == Some(AccessType)
                   && token.jws.claims.mediaId == Some(expectedMediaId)
                   && token.jws.claims.accessKeyHash == Some(HashString(accessKey))
                   && (token.jws.claims.exp.Some? ==> now < token.jws.claims.exp.value)
    ensures JwtDecode(token, GenerateSigningKey(cfg.secretKey, accessKey), cfg.algorithm, now).Err? ==> !ok
  {
    match JwtDecode(token, GenerateSigningKey(cfg.secretKey, accessKey), cfg.algorithm, now)
    case Err(_) => false
    case Ok(payload) =>
      if payload.tokenType != Some(AccessType) then false
      else if payload.mediaId != Some(expectedMediaId) then false
      else if payload.accessKeyHash != Some(HashString(accessKey)) then false
      else true
  }

  /** `validate_token_format`: a non-empty string that splits on "." into exactly three parts. */
  function ValidateTokenFormat(token: string): (ok: bool)
    ensures ok <==> Count(token, '.') == 2
  {
    SplitCount(token, '.');
    if token == "" then false
    else
      var parts := Split(token, '.');
      if |parts| != 3 then false else true
  }

  /** `create_admin_token`: signed with the secret itself; `expiryHours` defaults to 24 in the source. */
  function CreateAdminToken(cfg: Config, adminKey: string, expiryHours: int, now: int, jti: string): (t: Jws)
    ensures forall at :: VerifyAdminToken(cfg, Compact(t), adminKey, at) <==> at < now + 3600 * expiryHours
    ensures t.claims.iat == now && t.claims.exp == Some(now + 3600 * expiryHours) && t.claims.jti == jti
  {
    var claims := Claims(
      mediaId := None,
      accessKeyHash := None,
      admin := Some(true),
      adminKeyHash := Some(HashString(adminKey)),
      iat := now,
      exp := Some(now + 3600 * expiryHours),
      jti := jti,
      tokenType := Some(AdminType));
    JwtEncode(claims, SecretText(cfg.secretKey), cfg.algorithm)
  }

  /** `verify_admin_token`: an admin-type payload, `admin` truthy, carrying the hash of the admin key. */
  function VerifyAdminToken(cfg: Config, token: Token, adminKey: string, now: int): (ok: bool)
    ensures ok ==> token.Compact?
                   && token.jws.signature == Sign(cfg.algorithm, SecretText(cfg.secretKey), token.jws.claims)
                   && token.jws.claims.tokenType == Some(AdminType)
                   && token.jws.claims.admin == Some(true)
                   && token.jws.claims.adminKeyHash == Some(HashString(adminKey))
                   && (token.jws.claims.exp.Some? ==> now < token.jws.claims.exp.value)
    ensures JwtDecode(token, SecretText(cfg.secretKey), cfg.algorithm, now).Err? ==> !ok
  {
    match JwtDecode(token, SecretText(cfg.secretKey), cfg.algorithm, now)
    case Err(_) => false
    case Ok(payload) =>
      if payload.tokenType != Some(AdminType) then false
      else if payload.admin != Some(true) then false
      else if payload.adminKeyHash != Some(HashString(adminKey)) then false
      else true
  }

  // ---------------------------------------------------------------------
  // Properties of the token codec

  /**
   * `jwt.decode` undoes `jwt.encode`: under the signing key and algorithm a
   * token was made with, it yields the payload back until `exp`; under any
   * other key, or with any other allowed algorithm, it fails.
   */
  lemma EncodeDecode(claims: Claims, key: Key, other: Key, alg: string, otherAlg: string, now: int)
    ensures JwtDecode(Compact(JwtEncode(claims, key, alg)), key, alg, now)
            == if claims.exp.Some? && claims.exp.value <= now then Err(ExpiredSignature) else Ok(claims)
    ensures other != key ==> JwtDecode(Compact(JwtEncode(claims, key, alg)), other, alg, now) == Err(InvalidSignature)
    ensures otherAlg != alg ==> JwtDecode(Compact(JwtEncode(claims, key, alg)), key, otherAlg, now) == Err(InvalidAlgorithm)
  {
  }

  /** Different access keys give different signing keys under one secret. */
  lemma SigningKeysDiffer(secretKey: string, k1: string, k2: string)
    requires k1 != k2
    ensures GenerateSigningKey(secretKey, k1) != GenerateSigningKey(secretKey, k2)
  {
    var s1, s2 := secretKey + ":" + k1, secretKey + ":" + k2;
    assert s1[|secretKey| + 1..] == k1;
    assert s2[|secretKey| + 1..] == k2;
  }

  /**
   * The separator does not make the derived key injective in both inputs:
   * one combined string arises from two different (secret, access key)
   * pairs. Harmless while the secret is fixed.
   */
  lemma SigningKeySeparatorAmbiguity(a: string, b: string, c: string)
    ensures a + ":" + b != a
    ensures GenerateSigningKey(a + ":" + b, c) == GenerateSigningKey(a, b + ":" + c)
  {
    assert |a + ":" + b| > |a|;
    assert (a + ":" + b) + ":" + c == a + ":" + (b + ":" + c);
  }

  /** An access token is bound to its media id: it verifies for no other. */
  lemma AccessTokenRejectsOtherMedia(cfg: Config, mediaId: string, accessKey: string, expiryMinutes: int,
                                     now: int, jti: string, otherMediaId: string, at: int)
    requires otherMediaId != mediaId
    ensures !VerifyAccessToken(cfg, Compact(CreateAccessToken(cfg, mediaId, accessKey, expiryMinutes, now, jti)),
                               otherMediaId, accessKey, at)
  {
  }

  /** An access token is bound to its access key: it verifies with no other. */
  lemma AccessTokenRejectsOtherKey(cfg: Config, mediaId: string, accessKey: string, expiryMinutes: int,
                                   now: int, jti: string, otherKey: string, anyMediaId: string, at: int)
    requires otherKey != accessKey
    ensures !VerifyAccessToken(cfg, Compact(CreateAccessToken(cfg, mediaId, accessKey, expiryMinutes, now, jti)),
                               anyMediaId, otherKey, at)
  {
    SigningKeysDiffer(cfg.secretKey, accessKey, otherKey);
  }

  /** No admin token passes the access check, for any media id, key or time. */
  lemma AdminTokenIsNoAccessToken(cfg: Config, adminKey: string, expiryHours: int, now: int, jti: string,
                                  mediaId: string, accessKey: string, at: int)
    ensures !VerifyAccessToken(cfg, Compact(CreateAdminToken(cfg, adminKey, expiryHours, now, jti)),
                               mediaId, accessKey, at)
  {
  }

  /** No access token passes the admin check, for any admin key or time. */
  lemma AccessTokenIsNoAdminToken(cfg: Config, mediaId: string, accessKey: string, expiryMinutes: int,
                                  now: int, jti: string, adminKey: string, at: int)
    ensures !VerifyAdminToken(cfg, Compact(CreateAccessToken(cfg, mediaId, accessKey, expiryMinutes, now, jti)),
                              adminKey, at)
  {
  }

  /** An admin token verifies with no other admin key. */
  lemma AdminTokenRejectsOtherKey(cfg: Config, adminKey: string, expiryHours: int, now: int, jti: string,
                                  otherKey: string, at: int)
    requires otherKey != adminKey
    ensures !VerifyAdminToken(cfg, Compact(CreateAdminToken(cfg, adminKey, expiryHours, now, jti)), otherKey, at)
  {
  }

  /**
   * A compact serialization, three parts made of base64url characters
   * (which exclude "."), passes the format check, and its parts are
   * exactly what `split` recovers.
   */
  lemma {:induction false} CompactSerializationFormat(header: string, payload: string, signature: string)
    requires '.' !in header && '.' !in payload && '.' !in signature
    ensures Split(header + "." + payload + "." + signature, '.') == [header, payload, signature]
    ensures ValidateTokenFormat(header + "." + payload + "." + signature)
  {
    var rest := payload + "." + signature;
    assert header + "." + payload + "." + signature == header + ['.'] + rest;
    SplitAround(header, '.', rest);
    assert rest == payload + ['.'] + signature;
    SplitAround(payload, '.', signature);
    SplitWithoutSeparator(header, '.');
    SplitWithoutSeparator(payload, '.');
    SplitWithoutSeparator(signature, '.');
    SplitCount(header + "." + payload + "." + signature, '.');
  }
}
