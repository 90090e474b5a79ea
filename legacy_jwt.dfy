/** Tokens of the older auth service: the same claims and checks as the
    auth-service's, but issued with an expiry only (no `iat`, no `jti`) and
    returned without their claims. */
module LegacyJwt {
  import opened Wrappers
  import opened GoTime
  import opened EnvConfig
  import opened Jwt

  /** The claims of a legacy token: expiry `ttl` after `now`, truncated to seconds. */
  function LegacyClaims(userId: string, kind: string, ttl: Duration, now: Time): (c: Claims)
    ensures c.exp.Some? && c.exp.value <= now + ttl < c.exp.value + Second
    ensures c.iat.None? && c.jti == ""
    ensures c.userId == userId && c.kind == kind
  {
    Claims(userId, kind, Some(NumericDate(now + ttl)), None, "")
  }

  /** `GenerateAccessToken`: an HS256 token under the access secret that
      carries the legacy access claims of the user. */
  function GenerateAccessToken(codec: Codec, userId: string, cfg: JwtConfig, now: Time): (s: string)
    ensures var t := Jws(HS256, cfg.access, LegacyClaims(userId, AccessKind, cfg.accessExp, now));
      RoundTrips(codec, t) ==> codec.decode(s) == t
  {
    codec.encode(Jws(HS256, cfg.access, LegacyClaims(userId, AccessKind, cfg.accessExp, now)))
  }

  /** `GenerateRefreshToken`: an HS256 token under the refresh secret that
      carries the legacy refresh claims of the user. */
  function GenerateRefreshToken(codec: Codec, userId: string, cfg: JwtConfig, now: Time): (s: string)
    ensures var t := Jws(HS256, cfg.refresh, LegacyClaims(userId, RefreshKind, cfg.refreshExp, now));
      RoundTrips(codec, t) ==> codec.decode(s) == t
  {
    codec.encode(Jws(HS256, cfg.refresh, LegacyClaims(userId, RefreshKind, cfg.refreshExp, now)))
  }

  /** A legacy access token is accepted under the access secret until its
      expiry and yields the user id it was issued for. */
  lemma AccessRoundTrip(codec: Codec, userId: string, cfg: JwtConfig, now: Time, later: Time)
    requires RoundTrips(codec, Jws(HS256, cfg.access, LegacyClaims(userId, AccessKind, cfg.accessExp, now)))
    ensures var r := ParseAccessToken(codec, GenerateAccessToken(codec, userId, cfg, now), cfg.access, later);
      (r.Ok? <==> later < NumericDate(now + cfg.accessExp)) && (r.Ok? ==> r.value.userId == userId)
  {
  }

  /** A legacy refresh token is accepted under the refresh secret until its
      expiry, and never as an access token. */
  lemma RefreshRoundTrip(codec: Codec, userId: string, cfg: JwtConfig, now: Time, later: Time)
    requires RoundTrips(codec, Jws(HS256, cfg.refresh, LegacyClaims(userId, RefreshKind, cfg.refreshExp, now)))
    ensures var s := GenerateRefreshToken(codec, userId, cfg, now);
      (ParseRefreshToken(codec, s, cfg.refresh, later).Ok? <==> later < NumericDate(now + cfg.refreshExp))
      && ParseAccessToken(codec, s, cfg.access, later).Err?
  {
  }
}
