/** Access and refresh tokens of the auth-service: HMAC-signed JWTs carrying
    the user id, the token type, an expiry, an issue time and a unique id.

    A token is modelled by what a JWS reader finds in it: the signing
    algorithm, the key it was signed with (HMAC forgery is out of scope, so a
    signature checks under a secret exactly when it was made with that
    secret) and the claims. The compact serialization itself belongs to the
    JWT library; it enters as a `Codec`, and the round-trip lemmas assume
    only that decoding the encoding of the one token at hand gives it back. */
module Jwt {
  import opened Wrappers
  import opened GoTime
  import opened EnvConfig

  /** The claims: `user_id`, `type`, and the registered `exp`, `iat` and `jti`. */
  datatype Claims = Claims(userId: string, kind: string, exp: Option<Time>, iat: Option<Time>, jti: string)

  /** The `alg` header: the HMAC family, "none", the asymmetric families, or a
      name the library does not know. */
  datatype Alg = HS256 | HS384 | HS512 | NoneAlg | Asymmetric(name: string) | Unknown(name: string)

  predicate IsHmac(a: Alg) {
    a == HS256 || a == HS384 || a == HS512
  }

  /** A decoded token, or text that is not a JWS at all. */
  datatype Token = Jws(alg: Alg, key: string, claims: Claims) | Garbled

  datatype Codec = Codec(encode: Token -> string, decode: string -> Token)

  /** The codec reads back the token it wrote. */
  predicate RoundTrips(codec: Codec, t: Token) {
    codec.decode(codec.encode(t)) == t
  }

  /** Why a token is refused: not a JWS, unknown algorithm, signature not
      valid under the secret, expired, or the wrong token type. */
  datatype TokenError = Malformed | UnverifiableAlg | BadSignature | Expired | WrongKind

  const AccessKind: string := "access"
  const RefreshKind: string := "refresh"

  /** The claims both generators build: expiry `ttl` after `now` and issue
      time `now`, both truncated to seconds, and a fresh unique id. */
  function NewClaims(userId: string, kind: string, ttl: Duration, now: Time, jti: string): (c: Claims)
    ensures c.exp.Some? && c.exp.value <= now + ttl < c.exp.value + Second
    ensures c.iat.Some? && c.iat.value <= now < c.iat.value + Second
    ensures c.userId == userId && c.kind == kind && c.jti == jti
  {
    Claims(userId, kind, Some(NumericDate(now + ttl)), Some(NumericDate(now)), jti)
  }

  /** `GenerateAccessToken`: an HS256 token under the access secret. `jti`
      is the fresh `uuid.NewString()`. */
  function GenerateAccessToken(codec: Codec, userId: string, cfg: JwtConfig, now: Time, jti: string): (r: (string, Claims))
    ensures r.1.userId == userId && r.1.kind == AccessKind && r.1.jti == jti
    ensures r.1.exp == Some(NumericDate(now + cfg.accessExp)) && r.1.iat == Some(NumericDate(now))
    // The claims returned are the ones the token carries, signed with HS256 under the access secret.
    ensures RoundTrips(codec, Jws(HS256, cfg.access, r.1)) ==> codec.decode(r.0) == Jws(HS256, cfg.access, r.1)
  {
    var claims := NewClaims(userId, AccessKind, cfg.accessExp, now, jti);
    (codec.encode(Jws(HS256, cfg.access, claims)), claims)
  }

  /** `GenerateRefreshToken`: an HS256 token under the refresh secret. */
  function GenerateRefreshToken(codec: Codec, userId: string, cfg: JwtConfig, now: Time, jti: string): (r: (string, Claims))
    ensures r.1.userId == userId && r.1.kind == RefreshKind && r.1.jti == jti
    ensures r.1.exp == Some(NumericDate(now + cfg.refreshExp)) && r.1.iat == Some(NumericDate(now))
    // The claims returned are the ones the token carries, signed with HS256 under the refresh secret.
    ensures RoundTrips(codec, Jws(HS256, cfg.refresh, r.1)) ==> codec.decode(r.0) == Jws(HS256, cfg.refresh, r.1)
  {
    var claims := NewClaims(userId, RefreshKind, cfg.refreshExp, now, jti);
    (codec.encode(Jws(HS256, cfg.refresh, claims)), claims)
  }

  /** `jwt.ParseWithClaims` with a key function that returns the secret for
      any algorithm: the structure, then the signature, then the expiry
      (`now` must be strictly before `exp` when present; `iat` is not checked). */
  function ParseWithClaims(codec: Codec, s: string, secret: string, now: Time): (r: Result<Claims, TokenError>)
    ensures r.Ok? <==> codec.decode(s).Jws? && IsHmac(codec.decode(s).alg) && codec.decode(s).key == secret
                       && (codec.decode(s).claims.exp.Some? ==> now < codec.decode(s).claims.exp.value)
    ensures r.Ok? ==> r.value == codec.decode(s).claims
  {
    match codec.decode(s)
    case Garbled => Err(Malformed)
    case Jws(alg, key, claims) =>
      if alg.Unknown? then Err(UnverifiableAlg)
      else if !IsHmac(alg) || key != secret then Err(BadSignature)
      else if claims.exp.Some? && !(now < claims.exp.value) then Err(Expired)
      else Ok(claims)
  }

  /** A verified token whose `type` claim is not `kind` is refused. */
  function ParseKind(codec: Codec, s: string, secret: string, now: Time, kind: string): (r: Result<Claims, TokenError>)
    ensures r.Ok? <==> ParseWithClaims(codec, s, secret, now).Ok? && ParseWithClaims(codec, s, secret, now).value.kind == kind
    ensures r.Ok? ==> r.value == ParseWithClaims(codec, s, secret, now).value
  {
    var claims :- ParseWithClaims(codec, s, secret, now);
    if claims.kind != kind then Err(WrongKind) else Ok(claims)
  }

  /** `ParseAccessToken` */
  function ParseAccessToken(codec: Codec, s: string, secret: string, now: Time): (r: Result<Claims, TokenError>)
    ensures r.Ok? ==> r.value.kind == AccessKind
  {
    ParseKind(codec, s, secret, now, AccessKind)
  }

  /** `ParseRefreshToken` */
  function ParseRefreshToken(codec: Codec, s: string, secret: string, now: Time): (r: Result<Claims, TokenError>)
    ensures r.Ok? ==> r.value.kind == RefreshKind
  {
    ParseKind(codec, s, secret, now, RefreshKind)
  }

  /** An access token is accepted under the access secret, with the claims it
      was issued with, exactly until its (second-truncated) expiry. */
  lemma AccessRoundTrip(codec: Codec, userId: string, cfg: JwtConfig, now: Time, jti: string, later: Time)
    requires RoundTrips(codec, Jws(HS256, cfg.access, NewClaims(userId, AccessKind, cfg.accessExp, now, jti)))
    ensures var (s, claims) := GenerateAccessToken(codec, userId, cfg, now, jti);
      (ParseAccessToken(codec, s, cfg.access, later).Ok? <==> later < NumericDate(now + cfg.accessExp))
      && (ParseAccessToken(codec, s, cfg.access, later).Ok? ==> ParseAccessToken(codec, s, cfg.access, later).value == claims)
  {
  }

  /** A refresh token is accepted under the refresh secret exactly until its expiry. */
  lemma RefreshRoundTrip(codec: Codec, userId: string, cfg: JwtConfig, now: Time, jti: string, later: Time)
    requires RoundTrips(codec, Jws(HS256, cfg.refresh, NewClaims(userId, RefreshKind, cfg.refreshExp, now, jti)))
    ensures var (s, claims) := GenerateRefreshToken(codec, userId, cfg, now, jti);
      (ParseRefreshToken(codec, s, cfg.refresh, later).Ok? <==> later < NumericDate(now + cfg.refreshExp))
      && (ParseRefreshToken(codec, s, cfg.refresh, later).Ok? ==> ParseRefreshToken(codec, s, cfg.refresh, later).value == claims)
  {
  }

  /** The `type` claim keeps the two kinds apart even when both secrets are
      the same: a refresh token is never an access token and vice versa. */
  lemma KindsAreDisjoint(codec: Codec, s: string, secret: string, now: Time)
    ensures !(ParseAccessToken(codec, s, secret, now).Ok? && ParseRefreshToken(codec, s, secret, now).Ok?)
  {
  }

  /** A token is refused under any secret other than the one it was signed with. */
  lemma WrongSecretRefused(codec: Codec, userId: string, cfg: JwtConfig, now: Time, jti: string, secret: string, later: Time)
    requires RoundTrips(codec, Jws(HS256, cfg.access, NewClaims(userId, AccessKind, cfg.accessExp, now, jti)))
    requires secret != cfg.access
    ensures ParseAccessToken(codec, GenerateAccessToken(codec, userId, cfg, now, jti).0, secret, later) == Err(BadSignature)
  {
  }

  /** With a TTL that is not positive, a fresh access token is already expired:
      it is refused at its issue time and at every later instant. */
  lemma NonPositiveTtlExpired(codec: Codec, userId: string, cfg: JwtConfig, now: Time, jti: string, later: Time)
    requires RoundTrips(codec, Jws(HS256, cfg.access, NewClaims(userId, AccessKind, cfg.accessExp, now, jti)))
    requires cfg.accessExp <= 0 && now <= later
    ensures ParseAccessToken(codec, GenerateAccessToken(codec, userId, cfg, now, jti).0, cfg.access, later) == Err(Expired)
  {
  }

  /** Tokens signed with "none", an asymmetric algorithm or an unknown one
      are refused whatever their claims. */
  lemma OnlyHmacAccepted(codec: Codec, s: string, secret: string, now: Time)
    requires codec.decode(s).Jws? && !IsHmac(codec.decode(s).alg)
    ensures ParseAccessToken(codec, s, secret, now).Err? && ParseRefreshToken(codec, s, secret, now).Err?
  {
  }
}
