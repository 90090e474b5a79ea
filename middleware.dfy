/** The Gin middleware of the older auth service. `JWTAuth` lets a request
    on only with a valid access token in "Authorization: Bearer <token>";
    `OptionalJWTAuth` never stops a request and adds `user_id` when such a
    token is present. */
module Middleware {
  import opened Wrappers
  import opened GoTime
  import opened GoStrings
  import opened EnvConfig
  import opened Jwt
  import opened GrpcAuth

  const StatusUnauthorized: int := 401

  /** The part of `gin.Context` the middleware touches. */
  class GinContext {
    /** The request headers, by canonical name. */
    var headers: map<string, string>
    /** The values stored with `Set`. */
    var keys: map<string, string>
    /** Whether `Abort...` was called, with the status and the `error` field
        of the JSON body it wrote. */
    var aborted: bool
    var status: int
    var errorMessage: string
    /** Whether `Next` handed the request on to the rest of the chain. */
    var nextCalled: bool

    constructor (headers: map<string, string>)
      ensures this.headers == headers && keys == map[]
      ensures !aborted && status == 200 && errorMessage == "" && !nextCalled
    {
      this.headers := headers;
      keys := map[];
      aborted := false;
      status := 200;
      errorMessage := "";
      nextCalled := false;
    }

    /** `GetHeader`: "" when the header is absent. */
    function GetHeader(name: string): (v: string)
      reads this
      ensures name in headers ==> v == headers[name]
      ensures name !in headers ==> v == ""
    {
      if name in headers then headers[name] else ""
    }

    /** `AbortWithStatusJSON(status, gin.H{"error": message})` */
    method AbortWithError(code: int, message: string)
      modifies this
      ensures aborted && status == code && errorMessage == message
      ensures headers == old(headers) && keys == old(keys) && nextCalled == old(nextCalled)
    {
      aborted := true;
      status := code;
      errorMessage := message;
    }

    /** `Set(key, value)` */
    method Set(key: string, value: string)
      modifies this
      ensures keys == old(keys)[key := value]
      ensures headers == old(headers) && aborted == old(aborted) && status == old(status)
      ensures errorMessage == old(errorMessage) && nextCalled == old(nextCalled)
    {
      keys := keys[key := value];
    }

    /** `Next` */
    method Next()
      modifies this
      ensures nextCalled
      ensures headers == old(headers) && keys == old(keys) && aborted == old(aborted)
      ensures status == old(status) && errorMessage == old(errorMessage)
    {
      nextCalled := true;
    }
  }

  /** Is `header` a Bearer header? */
  predicate IsBearer(header: string) {
    header != "" && HasPrefix(header, BearerPrefix)
  }

  /** `JWTAuth`: a missing or non-Bearer header, or a token that does not
      parse as an access token under the access secret (a refresh token, an
      expired one, one signed with another key), ends the request with 401;
      otherwise `user_id` is set to the token's `user_id`, unchecked, and
      the request goes on. */
  method JwtAuth(jwtCfg: JwtConfig, codec: Codec, now: Time, c: GinContext)
    modifies c
    ensures c.headers == old(c.headers)
    ensures var h := old(c.GetHeader("Authorization"));
      && (!IsBearer(h) ==>
            c.aborted && c.status == StatusUnauthorized && c.errorMessage == "Missing or invalid token"
            && c.keys == old(c.keys) && c.nextCalled == old(c.nextCalled))
      && (IsBearer(h) && ParseAccessToken(codec, BearerToken(h), jwtCfg.access, now).Err? ==>
            c.aborted && c.status == StatusUnauthorized && c.errorMessage == "Invalid token"
            && c.keys == old(c.keys) && c.nextCalled == old(c.nextCalled))
      && (IsBearer(h) && ParseAccessToken(codec, BearerToken(h), jwtCfg.access, now).Ok? ==>
            c.keys == old(c.keys)["user_id" := ParseAccessToken(codec, BearerToken(h), jwtCfg.access, now).value.userId]
            && c.nextCalled && c.aborted == old(c.aborted) && c.status == old(c.status)
            && c.errorMessage == old(c.errorMessage))
  {
    var authHeader := c.GetHeader("Authorization");
    if authHeader == "" || !HasPrefix(authHeader, BearerPrefix) {
      c.AbortWithError(StatusUnauthorized, "Missing or invalid token");
      return;
    }
    var tokenStr := TrimPrefix(authHeader, BearerPrefix);
    var claims := ParseAccessToken(codec, tokenStr, jwtCfg.access, now);
    if claims.Err? {
      c.AbortWithError(StatusUnauthorized, "Invalid token");
      return;
    }
    c.Set("user_id", claims.value.userId);
    c.Next();
  }

  /** `OptionalJWTAuth`: never aborts and always calls `Next`; `user_id` is
      set, to the token's `user_id`, exactly when the header is a Bearer
      header whose token parses, and nothing else changes. */
  method OptionalJwtAuth(jwtCfg: JwtConfig, codec: Codec, now: Time, c: GinContext)
    modifies c
    ensures c.headers == old(c.headers) && c.nextCalled
    ensures c.aborted == old(c.aborted) && c.status == old(c.status) && c.errorMessage == old(c.errorMessage)
    ensures var h := old(c.GetHeader("Authorization"));
      c.keys == if IsBearer(h) && ParseAccessToken(codec, BearerToken(h), jwtCfg.access, now).Ok?
                then old(c.keys)["user_id" := ParseAccessToken(codec, BearerToken(h), jwtCfg.access, now).value.userId]
                else old(c.keys)
  {
    var authHeader := c.GetHeader("Authorization");
    if authHeader != "" && HasPrefix(authHeader, BearerPrefix) {
      var tokenStr := TrimPrefix(authHeader, BearerPrefix);
      var claims := ParseAccessToken(codec, tokenStr, jwtCfg.access, now);
      if claims.Ok? {
        c.Set("user_id", claims.value.userId);
      }
    }
    c.Next();
  }
}
