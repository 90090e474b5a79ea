/** The link-service's interceptors. Tokens are checked by the auth-service
    over gRPC (`ValidateAccessToken`), which enters here as `validate`: the
    reply for a token, or None when the call itself fails.
    `AuthInterceptor` rejects a protected call without a valid token;
    `OptionalAuthInterceptor` only adds `user_id` when a valid token is
    present. */
module LinkInterceptor {
  import opened Wrappers
  import opened Uuid
  import opened GoStrings
  import opened GrpcAuth

  /** `ValidateAccessTokenResponse` */
  datatype ValidateReply = ValidateReply(valid: bool, userId: string)

  /** `authRequiredMethods`: shipped empty. */
  const AuthRequiredMethods: map<string, bool> := map[]

  const CreateShortLinkMethod: string := "/link.v1.LinkService/CreateShortLink"

  /** `authOptionalMethods` */
  const AuthOptionalMethods: map<string, bool> := map[CreateShortLinkMethod := true]

  /** Does the reply accept the token? */
  predicate Accepted(reply: Option<ValidateReply>) {
    reply.Some? && reply.value.valid
  }

  /** The decision of `AuthInterceptor` over the method table `table`. */
  function RequireAuth(table: map<string, bool>, fullMethod: string, md: Option<Metadata>,
                       validate: string -> Option<ValidateReply>): (o: Outcome)
    ensures !Listed(table, fullMethod) ==> o == Handled(None)
    ensures Listed(table, fullMethod) && md.None? ==> o == Unauthenticated("missing metadata")
    ensures Listed(table, fullMethod) && o.Handled? ==> o.userId.Some?
  {
    if !Listed(table, fullMethod) then Handled(None)
    else if md.None? then Unauthenticated("missing metadata")
    else
      var headers := AuthHeaders(md.value);
      if |headers| == 0 || !HasPrefix(headers[0], BearerPrefix) then Unauthenticated("missing or invalid token")
      else
        var reply := validate(BearerToken(headers[0]));
        if !Accepted(reply) then Unauthenticated("invalid token")
        else
          match Parse(reply.value.userId)
          case None => Unauthenticated("invalid user_id in token")
          case Some(userId) => Handled(Some(userId))
  }

  /** `AuthInterceptor` */
  function Auth(fullMethod: string, md: Option<Metadata>, validate: string -> Option<ValidateReply>): Outcome {
    RequireAuth(AuthRequiredMethods, fullMethod, md, validate)
  }

  /** The decision of `OptionalAuthInterceptor` over the method table `table`;
      missing metadata reads as no `authorization` value. */
  function OptionalAuth(table: map<string, bool>, fullMethod: string, md: Option<Metadata>,
                        validate: string -> Option<ValidateReply>): (o: Outcome)
    ensures !Listed(table, fullMethod) ==> o == Handled(None)
  {
    if !Listed(table, fullMethod) then Handled(None)
    else
      var headers := if md.Some? then AuthHeaders(md.value) else [];
      if |headers| > 0 && HasPrefix(headers[0], BearerPrefix) then
        var reply := validate(BearerToken(headers[0]));
        if Accepted(reply) then
          match Parse(reply.value.userId)
          case None => Unauthenticated("invalid user_id in token")
          case Some(userId) => Handled(Some(userId))
        else Handled(None)
      else Handled(None)
  }

  /** `OptionalAuthInterceptor` */
  function Optional(fullMethod: string, md: Option<Metadata>, validate: string -> Option<ValidateReply>): Outcome {
    OptionalAuth(AuthOptionalMethods, fullMethod, md, validate)
  }

  /** With the shipped empty table, `AuthInterceptor` lets every call through
      with its context unchanged. */
  lemma AuthNeverRejects(fullMethod: string, md: Option<Metadata>, validate: string -> Option<ValidateReply>)
    ensures Auth(fullMethod, md, validate) == Handled(None)
  {
  }

  /** For a protected method, a failed validation call or a reply that says
      not valid is refused, whatever the token. */
  lemma RequireAuthRefusesInvalid(table: map<string, bool>, fullMethod: string, md: Metadata,
                                  validate: string -> Option<ValidateReply>)
    requires Listed(table, fullMethod)
    requires forall t :: !Accepted(validate(t))
    ensures RequireAuth(table, fullMethod, Some(md), validate).Unauthenticated?
  {
  }

  /** For a protected method, the handler runs with `user_id` = `u` exactly
      when the first `authorization` value is a Bearer header, the
      auth-service accepts its token, and the `user_id` it returns is `u`. */
  lemma RequireAuthAccepts(table: map<string, bool>, fullMethod: string, md: Metadata,
                           validate: string -> Option<ValidateReply>, u: Uuid)
    requires Listed(table, fullMethod)
    ensures RequireAuth(table, fullMethod, Some(md), validate) == Handled(Some(u)) <==>
      var headers := AuthHeaders(md);
      && |headers| > 0 && HasPrefix(headers[0], BearerPrefix)
      && Accepted(validate(BearerToken(headers[0])))
      && Parse(validate(BearerToken(headers[0])).value.userId) == Some(u)
  {
  }

  /** Only `CreateShortLink` takes an optional token. */
  lemma OptionalMethods(fullMethod: string)
    ensures Listed(AuthOptionalMethods, fullMethod) <==> fullMethod == CreateShortLinkMethod
  {
  }

  /** The optional check refuses a call only when the auth-service accepts
      the token but returns a `user_id` that is not a UUID; a missing,
      malformed or rejected token still reaches the handler. */
  lemma OptionalRejectsOnlyBadUserId(table: map<string, bool>, fullMethod: string, md: Option<Metadata>,
                                     validate: string -> Option<ValidateReply>)
    ensures OptionalAuth(table, fullMethod, md, validate).Unauthenticated? <==>
      var headers := if md.Some? then AuthHeaders(md.value) else [];
      && Listed(table, fullMethod)
      && |headers| > 0 && HasPrefix(headers[0], BearerPrefix)
      && Accepted(validate(BearerToken(headers[0])))
      && Parse(validate(BearerToken(headers[0])).value.userId).None?
  {
  }

  /** The optional check sets `user_id` = `u` exactly when the method is
      listed, the header is a Bearer header, the token is accepted and its
      `user_id` is `u`. */
  lemma OptionalSetsUser(table: map<string, bool>, fullMethod: string, md: Option<Metadata>,
                         validate: string -> Option<ValidateReply>, u: Uuid)
    ensures OptionalAuth(table, fullMethod, md, validate) == Handled(Some(u)) <==>
      var headers := if md.Some? then AuthHeaders(md.value) else [];
      && Listed(table, fullMethod)
      && |headers| > 0 && HasPrefix(headers[0], BearerPrefix)
      && Accepted(validate(BearerToken(headers[0])))
      && Parse(validate(BearerToken(headers[0])).value.userId) == Some(u)
  {
  }
}
