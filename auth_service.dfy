/** `UserService` of the auth-service: registration with e-mail
    verification, login, refresh-token rotation, logout and password reset,
    over the users, refresh-token, verification-token and reset-token tables.

    Every instant the code reads with `time.Now()` during one call is the
    same `now`, every `uuid.New()` is a parameter, and `faults` names the
    store and mail calls that fail on this run. */
module AuthService {
  import opened Wrappers
  import opened GoTime
  import opened Uuid
  import opened Store
  import opened Bcrypt
  import opened Mail
  import opened AuthErrors
  import opened EnvConfig
  import opened Jwt
  import opened Users
  import opened RefreshTokens
  import OneShotTokens
  import opened EmailVerificationTokens
  import opened PasswordResetTokens

  /** A verification link is valid for 24 hours, a reset link for 30 minutes. */
  const VerificationTtl: nat := 24 * Hour
  const ResetTtl: nat := 30 * Minute

  const LinkPrefix: string := "https://app/confirm?token="

  /** The verification e-mail sent to `user` for `token`. */
  function VerificationMessage(user: User, token: string): (m: EmailMessage)
    ensures m.to == user.email && m.template == "verify_email"
    ensures m.data == map["UserName" := user.name, "ConfirmURL" := LinkPrefix + token]
  {
    EmailMessage(user.email, "Подтвердите email", "verify_email",
                 map["UserName" := user.name, "ConfirmURL" := LinkPrefix + token])
  }

  /** The reset e-mail sent to `user` for `token`. */
  function ResetMessage(user: User, token: string): (m: EmailMessage)
    ensures m.to == user.email && m.template == "reset_password"
    ensures m.data == map["UserName" := user.name, "ResetURL" := LinkPrefix + token, "ExpireMinutes" := "30"]
  {
    EmailMessage(user.email, "Сброс пароля", "reset_password",
                 map["UserName" := user.name, "ResetURL" := LinkPrefix + token, "ExpireMinutes" := "30"])
  }

  /** The refresh-token row a session starts with: the refresh claims' `jti`
      and expiry, the owner, not revoked. */
  function SessionRow(claims: Claims, userId: Uuid): (rt: RefreshToken)
    requires claims.exp.Some?
    ensures rt.jti == claims.jti && rt.userId == userId && rt.expiresAt == claims.exp.value && !rt.revoked
  {
    RefreshToken(claims.jti, userId, claims.exp.value, false)
  }

  /** Whether a user's latest reset token still stands, so that no new one is sent. */
  predicate PendingReset(latest: Option<OneShotTokens.OneShotToken>, now: Time) {
    latest.Some? && !latest.value.used && latest.value.expiresAt > now
  }

  class UserService {
    const repo: UserRepository
    const rtRepo: RefreshTokenRepository
    const emailTokenRepo: EmailVerificationTokenRepository
    const passwordResetRepo: PasswordResetTokenRepository
    const jwtCfg: JwtConfig
    const emailProducer: EmailProducer
    /** The JWS serialization the JWT library uses. */
    const codec: Codec

    ghost predicate Valid()
      reads repo, rtRepo, emailTokenRepo, passwordResetRepo
    {
      repo.Valid() && rtRepo.Valid() && emailTokenRepo.Valid() && passwordResetRepo.Valid()
    }

    constructor (repo: UserRepository, rtRepo: RefreshTokenRepository,
                 emailTokenRepo: EmailVerificationTokenRepository,
                 passwordResetRepo: PasswordResetTokenRepository,
                 jwtCfg: JwtConfig, emailProducer: EmailProducer, codec: Codec)
      ensures this.repo == repo && this.rtRepo == rtRepo && this.emailTokenRepo == emailTokenRepo
      ensures this.passwordResetRepo == passwordResetRepo && this.emailProducer == emailProducer
      ensures this.jwtCfg == jwtCfg && this.codec == codec
    {
      this.repo := repo;
      this.rtRepo := rtRepo;
      this.emailTokenRepo := emailTokenRepo;
      this.passwordResetRepo := passwordResetRepo;
      this.jwtCfg := jwtCfg;
      this.emailProducer := emailProducer;
      this.codec := codec;
    }

    /** `Register`: refuses a known e-mail; otherwise stores the user with the
        bcrypt digest of the password, then an unused verification token
        valid for 24 hours, then sends the verification e-mail, whose failure
        does not fail the call. A failure after the user is stored leaves it stored. */
    method Register(name: string, email: string, password: string, now: Time,
                    userId: Uuid, code: Uuid, tokenId: Uuid, faults: set<Call>)
      returns (r: Result<User, ServiceError>)
      requires Valid()
      modifies repo, emailTokenRepo, emailProducer
      ensures Valid()
      ensures var u := NewUser(name, email, Digest(password), userId, now);
        var t := OneShotTokens.NewRow(userId, Format(code), now + VerificationTtl, tokenId, now);
        var known := old(repo.FindByEmail(email)).Some?;
        var hashed := Utf8Length(password) <= MaxPasswordBytes;
        var stored := !known && hashed && InsertUser !in faults && !Users.HasId(old(repo.rows), userId);
        var issued := stored && InsertVerificationToken !in faults
          && !OneShotTokens.HasId(old(emailTokenRepo.rows), tokenId)
          && !OneShotTokens.HasToken(old(emailTokenRepo.rows), Format(code));
        && (known ==> r == Err(UserExists))
        && (!known && !hashed ==> r == Err(Hash(PasswordTooLong)))
        && (r.Ok? <==> issued)
        && (r.Ok? ==> r.value == u)
        && repo.rows == (if stored then old(repo.rows) + [u] else old(repo.rows))
        && emailTokenRepo.rows == (if issued then old(emailTokenRepo.rows) + [t] else old(emailTokenRepo.rows))
        && emailProducer.sent == (if issued && SendMail !in faults
                                  then old(emailProducer.sent) + [(email, VerificationMessage(u, t.token))]
                                  else old(emailProducer.sent))
    {
      if repo.FindByEmail(email).Some? {
        return Err(UserExists);
      }
      var hashed := GenerateFromPassword(password);
      if hashed.Err? {
        return Err(Hash(hashed.error));
      }
      var user, err := repo.Create(name, email, hashed.value, userId, now, InsertUser in faults);
      if err.Some? {
        return Err(Db(err.value));
      }
      var token, err2 := emailTokenRepo.Create(user.id, Format(code), now + VerificationTtl, tokenId, now,
                                               InsertVerificationToken in faults);
      if err2.Some? {
        return Err(Db(err2.value));
      }
      var sendErr := emailProducer.SendEmail(user.email, VerificationMessage(user, token.token), SendMail in faults);
      return Ok(user);
    }

    /** `Login`: an unknown e-mail or a wrong password creates nothing; otherwise
        it issues an access and a refresh token and stores exactly one
        unrevoked session row for the refresh token. */
    method Login(email: string, password: string, now: Time, accessJti: Uuid, refreshJti: Uuid, faults: set<Call>)
      returns (r: Result<(string, string), ServiceError>)
      requires Valid()
      modifies rtRepo
      ensures Valid()
      ensures var found := old(repo.FindByEmail(email));
        && (found.None? ==> r == Err(UserNotFound))
        && (found.Some? && !Matches(found.value.passwordHash, password) ==> r == Err(InvalidPassword))
        && (r.Err? ==> rtRepo.rows == old(rtRepo.rows))
        && (found.Some? && Matches(found.value.passwordHash, password) ==>
             var access := GenerateAccessToken(codec, Format(found.value.id), jwtCfg, now, Format(accessJti));
             var refresh := GenerateRefreshToken(codec, Format(found.value.id), jwtCfg, now, Format(refreshJti));
             && (r.Ok? <==> InsertSession !in faults && !HasJti(old(rtRepo.rows), Format(refreshJti)))
             && (r.Ok? ==> r.value == (access.0, refresh.0)
                           && rtRepo.rows == old(rtRepo.rows) + [SessionRow(refresh.1, found.value.id)]))
    {
      var user := repo.FindByEmail(email);
      if user.None? {
        return Err(UserNotFound);
      }
      if !Matches(user.value.passwordHash, password) {
        return Err(InvalidPassword);
      }
      var (access, accessClaims) := GenerateAccessToken(codec, Format(user.value.id), jwtCfg, now, Format(accessJti));
      var (refresh, refreshClaims) := GenerateRefreshToken(codec, Format(user.value.id), jwtCfg, now, Format(refreshJti));
      var err := rtRepo.Create(SessionRow(refreshClaims, user.value.id), InsertSession in faults);
      if err.Some? {
        return Err(Db(err.value));
      }
      return Ok((access, refresh));
    }

    /** `Refresh`: a refresh token that does not parse, or whose session row
        is revoked, expired or absent, is refused and changes nothing.
        Otherwise the old session is revoked (a failure to revoke is
        ignored), a new pair is issued for the token's user, and its session
        row is stored. A `user_id` that is not a UUID panics after the revoke. */
    method Refresh(token: string, now: Time, accessJti: Uuid, refreshJti: Uuid, faults: set<Call>)
      returns (r: Result<(string, string), ServiceError>)
      requires Valid()
      modifies rtRepo
      ensures Valid()
      ensures var parsed := ParseRefreshToken(codec, token, jwtCfg.refresh, now);
        && (parsed.Err? ==> r == Err(InvalidToken) && rtRepo.rows == old(rtRepo.rows))
        && (parsed.Ok? && old(rtRepo.FindValid(parsed.value.jti, now)).None? ==>
              r == Err(InvalidToken) && rtRepo.rows == old(rtRepo.rows))
        && (parsed.Ok? && old(rtRepo.FindValid(parsed.value.jti, now)).Some? ==>
              var revoked := if RevokeSession in faults then old(rtRepo.rows)
                             else RevokeJti(old(rtRepo.rows), parsed.value.jti);
              var owner := Parse(parsed.value.userId);
              var access := GenerateAccessToken(codec, parsed.value.userId, jwtCfg, now, Format(accessJti));
              var refresh := GenerateRefreshToken(codec, parsed.value.userId, jwtCfg, now, Format(refreshJti));
              && (owner.None? ==> r == Err(Panicked))
              && (r.Ok? <==> owner.Some? && InsertSession !in faults && !HasJti(revoked, Format(refreshJti)))
              && (r.Ok? ==> r.value == (access.0, refresh.0)
                            && rtRepo.rows == revoked + [SessionRow(refresh.1, owner.value)])
              && (r.Err? ==> rtRepo.rows == revoked))
      ensures r.Ok? && RevokeSession !in faults ==>
        forall later :: rtRepo.FindValid(ParseRefreshToken(codec, token, jwtCfg.refresh, now).value.jti, later).None?
    {
      var parsed := ParseRefreshToken(codec, token, jwtCfg.refresh, now);
      if parsed.Err? {
        return Err(InvalidToken);
      }
      var claims := parsed.value;
      var rt := rtRepo.FindValid(claims.jti, now);
      if rt.None? {
        return Err(InvalidToken);
      }
      var _ := rtRepo.RevokeByJti(rt.value.jti, RevokeSession in faults);
      ghost var revoked := rtRepo.rows;
      var (access, accessClaims) := GenerateAccessToken(codec, claims.userId, jwtCfg, now, Format(accessJti));
      var (refresh, refreshClaims) := GenerateRefreshToken(codec, claims.userId, jwtCfg, now, Format(refreshJti));
      var owner := Parse(claims.userId);
      if owner.None? {
        return Err(Panicked);
      }
      var err := rtRepo.Create(SessionRow(refreshClaims, owner.value), InsertSession in faults);
      if err.Some? {
        return Err(Db(err.value));
      }
      if RevokeSession !in faults {
        forall later
          ensures FindValidIn(rtRepo.rows, claims.jti, later).None?
        {
          RevokedJtiNotFound(old(rtRepo.rows), claims.jti, later);
          var k :| 0 <= k < |revoked| && revoked[k] == rt.value.(revoked := true);
          FindValidAppend(revoked, SessionRow(refreshClaims, owner.value), claims.jti, later);
        }
      }
      return Ok((access, refresh));
    }

    /** `Profile`: the user with this id, or GORM's not-found error. */
    function Profile(userId: Uuid): (r: Result<User, ServiceError>)
      reads repo
      ensures r.Ok? <==> Users.HasId(repo.rows, userId)
      ensures r.Ok? ==> r.value in repo.rows && r.value.id == userId
      ensures r.Err? ==> r.error == RecordNotFound
    {
      match repo.FindById(userId)
      case None => Err(RecordNotFound)
      case Some(user) => Ok(user)
    }

    /** `Logout`: revokes every live session of the user, passing a store
        error through; afterwards a second `Logout` would change nothing. */
    method Logout(userId: Uuid, faults: set<Call>) returns (err: Option<ServiceError>)
      requires Valid()
      modifies rtRepo
      ensures Valid()
      ensures err == (if RevokeSessions in faults then Some(Db(Unavailable)) else None)
      ensures rtRepo.rows == if RevokeSessions in faults then old(rtRepo.rows) else RevokeUser(old(rtRepo.rows), userId)
      ensures err.None? ==> RevokeUser(rtRepo.rows, userId) == rtRepo.rows
    {
      var e := rtRepo.RevokeAllForUser(userId, RevokeSessions in faults);
      if e.Some? {
        return Some(Db(e.value));
      }
      RevokeUserFacts(old(rtRepo.rows), userId, 0);
      return None;
    }

    /** `VerifyEmail`: a token that is unknown, used or expired is refused;
        otherwise the user is marked verified, then the token is marked used,
        after which it is never accepted again. */
    method VerifyEmail(token: string, now: Time, faults: set<Call>) returns (err: Option<ServiceError>)
      requires Valid()
      modifies repo, emailTokenRepo
      ensures Valid()
      ensures var found := old(emailTokenRepo.FindByToken(token, now));
        && (found.None? ==> err == Some(InvalidToken) && repo.rows == old(repo.rows)
                            && emailTokenRepo.rows == old(emailTokenRepo.rows))
        && (found.Some? ==>
              && repo.rows == (if VerifyUser in faults then old(repo.rows) else SetVerified(old(repo.rows), found.value.userId))
              && emailTokenRepo.rows == (if VerifyUser in faults || SpendVerificationToken in faults then old(emailTokenRepo.rows)
                                         else OneShotTokens.MarkUsedIn(old(emailTokenRepo.rows), found.value.id))
              && err == (if VerifyUser in faults || SpendVerificationToken in faults then Some(Db(Unavailable)) else None))
      ensures err.None? ==> forall later :: emailTokenRepo.FindByToken(token, later).None?
    {
      var evt := emailTokenRepo.FindByToken(token, now);
      if evt.None? {
        return Some(InvalidToken);
      }
      var e := repo.MarkEmailVerified(evt.value.userId, VerifyUser in faults);
      if e.Some? {
        return Some(Db(e.value));
      }
      var e2 := emailTokenRepo.MarkUsed(evt.value.id, SpendVerificationToken in faults);
      if e2.Some? {
        return Some(Db(e2.value));
      }
      forall later
        ensures OneShotTokens.FindByTokenIn(emailTokenRepo.rows, token, later).None?
      {
        OneShotTokens.SingleUse(old(emailTokenRepo.rows), token, now, later);
      }
      return None;
    }

    /** `ResendVerificationEmail`: refuses an unknown or already verified
        user; otherwise stores a new 24-hour token and sends it, and a failed
        send is returned (the token stays stored). */
    method ResendVerificationEmail(userId: Uuid, now: Time, code: Uuid, tokenId: Uuid, faults: set<Call>)
      returns (err: Option<ServiceError>)
      requires Valid()
      modifies emailTokenRepo, emailProducer
      ensures Valid()
      ensures var found := old(repo.FindById(userId));
        var t := OneShotTokens.NewRow(userId, Format(code), now + VerificationTtl, tokenId, now);
        var issued := found.Some? && !found.value.emailVerified && InsertVerificationToken !in faults
          && !OneShotTokens.HasId(old(emailTokenRepo.rows), tokenId)
          && !OneShotTokens.HasToken(old(emailTokenRepo.rows), Format(code));
        && (found.None? ==> err == Some(UserNotFound))
        && (found.Some? && found.value.emailVerified ==> err == Some(EmailAlreadyVerified))
        && (err.None? <==> issued && SendMail !in faults)
        && (issued && SendMail in faults ==> err == Some(Send(BrokerUnavailable)))
        && emailTokenRepo.rows == (if issued then old(emailTokenRepo.rows) + [t] else old(emailTokenRepo.rows))
        && emailProducer.sent == (if issued && SendMail !in faults
                                  then old(emailProducer.sent) + [(found.value.email, VerificationMessage(found.value, t.token))]
                                  else old(emailProducer.sent))
    {
      var user := repo.FindById(userId);
      if user.None? {
        return Some(UserNotFound);
      }
      if user.value.emailVerified {
        return Some(EmailAlreadyVerified);
      }
      var token, e := emailTokenRepo.Create(user.value.id, Format(code), now + VerificationTtl, tokenId, now,
                                            InsertVerificationToken in faults);
      if e.Some? {
        return Some(Db(e.value));
      }
      var sendErr := emailProducer.SendEmail(user.value.email, VerificationMessage(user.value, token.token), SendMail in faults);
      if sendErr.Some? {
        return Some(Send(sendErr.value));
      }
      return None;
    }

    /** `RequestPasswordReset`: refuses an unknown e-mail; sends nothing new
        while the user's latest reset token is unused and unexpired;
        otherwise stores a 30-minute token and sends it. */
    method RequestPasswordReset(email: string, now: Time, code: Uuid, tokenId: Uuid, faults: set<Call>)
      returns (err: Option<ServiceError>)
      requires Valid()
      modifies passwordResetRepo, emailProducer
      ensures Valid()
      ensures var found := old(repo.FindByEmail(email));
        var pending := found.Some? && PendingReset(old(passwordResetRepo.FindLatestByUser(found.value.id)), now);
        var t := OneShotTokens.NewRow(if found.Some? then found.value.id else Nil, Format(code), now + ResetTtl, tokenId, now);
        var issued := found.Some? && !pending && InsertResetToken !in faults
          && !OneShotTokens.HasId(old(passwordResetRepo.rows), tokenId);
        && (found.None? ==> err == Some(UserNotFound))
        && (pending ==> err == None)
        && (err.None? <==> pending || (issued && SendMail !in faults))
        && (issued && SendMail in faults ==> err == Some(Send(BrokerUnavailable)))
        && passwordResetRepo.rows == (if issued then old(passwordResetRepo.rows) + [t] else old(passwordResetRepo.rows))
        && emailProducer.sent == (if issued && SendMail !in faults
                                  then old(emailProducer.sent) + [(found.value.email, ResetMessage(found.value, t.token))]
                                  else old(emailProducer.sent))
    {
      var user := repo.FindByEmail(email);
      if user.None? {
        return Some(UserNotFound);
      }
      var latest := passwordResetRepo.FindLatestByUser(user.value.id);
      if PendingReset(latest, now) {
        return None;
      }
      var token, e := passwordResetRepo.Create(user.value.id, Format(code), now + ResetTtl, tokenId, now,
                                               InsertResetToken in faults);
      if e.Some? {
        return Some(Db(e.value));
      }
      var sendErr := emailProducer.SendEmail(user.value.email, ResetMessage(user.value, token.token), SendMail in faults);
      if sendErr.Some? {
        return Some(Send(sendErr.value));
      }
      return None;
    }

    /** `ConfirmPasswordReset`: a token that is unknown, used or expired is
        refused; so is one whose user no longer exists, and a new password
        bcrypt refuses. Otherwise the user's digest is replaced, then the
        token is marked used, after which its row is never accepted again. */
    method ConfirmPasswordReset(token: string, newPassword: string, now: Time, faults: set<Call>)
      returns (err: Option<ServiceError>)
      requires Valid()
      modifies repo, passwordResetRepo
      ensures Valid()
      ensures var found := old(passwordResetRepo.FindByToken(token, now));
        var user := if found.Some? then old(repo.FindById(found.value.userId)) else None;
        var accepted := found.Some? && user.Some? && Utf8Length(newPassword) <= MaxPasswordBytes;
        && (found.None? ==> err == Some(InvalidToken))
        && (found.Some? && user.None? ==> err == Some(UserNotFound))
        && (found.Some? && user.Some? && !accepted ==> err == Some(Hash(PasswordTooLong)))
        && repo.rows == (if accepted && WritePassword !in faults
                         then SetPassword(old(repo.rows), user.value.id, Digest(newPassword)) else old(repo.rows))
        && passwordResetRepo.rows == (if accepted && WritePassword !in faults && SpendResetToken !in faults
                                      then OneShotTokens.MarkUsedIn(old(passwordResetRepo.rows), found.value.id)
                                      else old(passwordResetRepo.rows))
        && (accepted ==> err == (if WritePassword in faults || SpendResetToken in faults then Some(Db(Unavailable)) else None))
        && (err.None? ==> forall later :: var again := passwordResetRepo.FindByToken(token, later);
                            again.Some? ==> again.value.id != found.value.id)
    {
      var prt := passwordResetRepo.FindByToken(token, now);
      if prt.None? {
        return Some(InvalidToken);
      }
      var user := repo.FindById(prt.value.userId);
      if user.None? {
        return Some(UserNotFound);
      }
      var hash := GenerateFromPassword(newPassword);
      if hash.Err? {
        return Some(Hash(hash.error));
      }
      var updated := user.value.(passwordHash := hash.value);
      var e := repo.UpdatePassword(updated, WritePassword in faults);
      if e.Some? {
        return Some(Db(e.value));
      }
      var e2 := passwordResetRepo.MarkUsed(prt.value.id, SpendResetToken in faults);
      if e2.Some? {
        return Some(Db(e2.value));
      }
      forall later
        ensures var again := OneShotTokens.FindByTokenIn(passwordResetRepo.rows, token, later);
          again.Some? ==> again.value.id != prt.value.id
      {
        OneShotTokens.MarkedNotFound(old(passwordResetRepo.rows), prt.value.id, token, later);
      }
      return None;
    }
  }
}
