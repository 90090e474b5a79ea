/** The auth-service's `AuthInterceptor`: calls to the methods in
    `authRequiredMethods` need an access token in the first `authorization`
    value, as "Bearer <token>", whose `user_id` is a UUID; any other call
    passes through. */
module AuthInterceptor {
  import opened Wrappers
  import opened GoTime
  import opened Uuid
  import opened GoStrings
  import opened EnvConfig
  import opened Jwt
  import opened GrpcAuth

  const GetProfileMethod: string := "/auth.v1.AuthService/GetProfile"
  const LogoutMethod: string := "/auth.v1.AuthService/Logout"

  /** `authRequiredMethods` */
  const AuthRequiredMethods: map<string, bool> := map[GetProfileMethod := true, LogoutMethod := true]

  /** The interceptor's decision for a call to `fullMethod` with incoming
      metadata `md` (None when the context carries none). */
  function Intercept(fullMethod: string, md: Option<Metadata>, codec: Codec, jwtCfg: JwtConfig, now: Time): (o: Outcome)
    ensures !Listed(AuthRequiredMethods, fullMethod) ==> o == Handled(None)
    ensures Listed(AuthRequiredMethods, fullMethod) && md.None? ==> o == Unauthenticated("missing metadata")
    ensures Listed(AuthRequiredMethods, fullMethod) && o.Handled? ==> o.userId.Some?
  {
    if !Listed(AuthRequiredMethods, fullMethod) then Handled(None)
    else if md.None? then Unauthenticated("missing metadata")
    else
      var headers := AuthHeaders(md.value);
      if |headers| == 0 || !HasPrefix(headers[0], BearerPrefix) then Unauthenticated("missing or invalid token")
      else
        match ParseAccessToken(codec, BearerToken(headers[0]), jwtCfg.access, now)
        case Err(_) => Unauthenticated("invalid token")
        case Ok(claims) =>
          match Parse(claims.userId)
          case None => Unauthenticated("invalid user_id in token")
          case Some(userId) => Handled(Some(userId))
  }

  /** Exactly `GetProfile` and `Logout` need a token. */
  lemma RequiredMethods(fullMethod: string)
    ensures Listed(AuthRequiredMethods, fullMethod) <==> fullMethod == GetProfileMethod || fullMethod == LogoutMethod
  {
  }

  /** A protected call reaches its handler, with `user_id` set to `u`,
      exactly when the first `authorization` value is "Bearer " followed by
      an access token that parses under the access secret and whose
      `user_id` is the text of `u`. */
  lemma InterceptAccepts(fullMethod: string, md: Metadata, codec: Codec, jwtCfg: JwtConfig, now: Time, u: Uuid)
    requires Listed(AuthRequiredMethods, fullMethod)
    ensures Intercept(fullMethod, Some(md), codec, jwtCfg, now) == Handled(Some(u)) <==>
      var headers := AuthHeaders(md);
      && |headers| > 0 && HasPrefix(headers[0], BearerPrefix)
      && ParseAccessToken(codec, BearerToken(headers[0]), jwtCfg.access, now).Ok?
      && Parse(ParseAccessToken(codec, BearerToken(headers[0]), jwtCfg.access, now).value.userId) == Some(u)
  {
  }

  /** A refresh token never opens a protected method, even when the access
      and refresh secrets are the same. */
  lemma RefreshTokenRejected(fullMethod: string, token: string, codec: Codec, jwtCfg: JwtConfig, now: Time)
    requires Listed(AuthRequiredMethods, fullMethod)
    requires ParseRefreshToken(codec, token, jwtCfg.access, now).Ok?
    ensures Intercept(fullMethod, Some(map["authorization" := [BearerPrefix + token]]), codec, jwtCfg, now).Unauthenticated?
  {
    var header := BearerPrefix + token;
    assert HasPrefix(header, BearerPrefix) by {
      assert header[..|BearerPrefix|] == BearerPrefix;
    }
    assert BearerToken(header) == token by {
      assert header[|BearerPrefix|..] == token;
    }
    KindsAreDisjoint(codec, token, jwtCfg.access, now);
  }

  /** An access token the auth-service issued for user `u` opens a protected
      method until it expires, and the handler sees `u`. */
  lemma IssuedTokenAccepted(fullMethod: string, codec: Codec, jwtCfg: JwtConfig, now: Time, jti: string, u: Uuid, later: Time)
    requires Listed(AuthRequiredMethods, fullMethod)
    requires RoundTrips(codec, Jws(HS256, jwtCfg.access, NewClaims(Format(u), AccessKind, jwtCfg.accessExp, now, jti)))
    requires later < NumericDate(now + jwtCfg.accessExp)
    ensures var token := GenerateAccessToken(codec, Format(u), jwtCfg, now, jti).0;
      Intercept(fullMethod, Some(map["authorization" := [BearerPrefix + token]]), codec, jwtCfg, later) == Handled(Some(u))
  {
    var token := GenerateAccessToken(codec, Format(u), jwtCfg, now, jti).0;
    var header := BearerPrefix + token;
    assert HasPrefix(header, BearerPrefix) by {
      assert header[..|BearerPrefix|] == BearerPrefix;
    }
    assert BearerToken(header) == token by {
      assert header[|BearerPrefix|..] == token;
    }
    AccessRoundTrip(codec, Format(u), jwtCfg, now, jti, later);
    ParseFormat(u);
  }
}
