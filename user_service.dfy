/** The `UserService` of user_service.go, an alternative version of the
    auth-service's service file: it imports the `linkv-auth` packages and
    declares the same names as auth_service.go beside it. It has the same
    registration, login, refresh rotation and logout as the auth-service's,
    without e-mail verification, and with a failed revoke during `Refresh`
    logged rather than silently dropped (logging itself is not modelled, so
    both behave alike here).

    As there, `now` is the one instant of the call, every `uuid.New()` is a
    parameter, and `faults` names the store calls that fail on this run. */
module LinkvAuthService {
  import opened Wrappers
  import opened GoTime
  import opened Uuid
  import opened Store
  import opened Bcrypt
  import opened AuthErrors
  import opened EnvConfig
  import opened Jwt
  import opened Users
  import opened RefreshTokens
  import AuthService

  class UserService {
    const repo: UserRepository
    const rtRepo: RefreshTokenRepository
    const jwtCfg: JwtConfig
    /** The JWS serialization the JWT library uses. */
    const codec: Codec

    ghost predicate Valid()
      reads repo, rtRepo
    {
      repo.Valid() && rtRepo.Valid()
    }

    constructor (repo: UserRepository, rtRepo: RefreshTokenRepository, jwtCfg: JwtConfig, codec: Codec)
      ensures this.repo == repo && this.rtRepo == rtRepo && this.jwtCfg == jwtCfg && this.codec == codec
    {
      this.repo := repo;
      this.rtRepo := rtRepo;
      this.jwtCfg := jwtCfg;
      this.codec := codec;
    }

    /** `Register`: refuses a known e-mail; otherwise stores exactly one user,
        holding the bcrypt digest of the password. */
    method Register(name: string, email: string, password: string, now: Time, userId: Uuid, faults: set<Call>)
      returns (r: Result<User, ServiceError>)
      requires Valid()
      modifies repo
      ensures Valid()
      ensures var u := NewUser(name, email, Digest(password), userId, now);
        var known := old(repo.FindByEmail(email)).Some?;
        var hashed := Utf8Length(password) <= MaxPasswordBytes;
        var stored := !known && hashed && InsertUser !in faults && !Users.HasId(old(repo.rows), userId);
        && (known ==> r == Err(UserExists))
        && (!known && !hashed ==> r == Err(Hash(PasswordTooLong)))
        && (r.Ok? <==> stored)
        && (r.Ok? ==> r.value == u && Matches(r.value.passwordHash, password))
        && repo.rows == (if stored then old(repo.rows) + [u] else old(repo.rows))
    {
      if repo.FindByEmail(email).Some? {
        return Err(UserExists);
      }
      var hashed := GenerateFromPassword(password);
      if hashed.Err? {
        return Err(Hash(hashed.error));
      }
      var user, err := repo.Create(name, email, hashed.value, userId, now, InsertUser in faults);
      if err.Some? {
        return Err(Db(err.value));
      }
      return Ok(user);
    }

    /** `Login`: an unknown e-mail or a wrong password creates nothing; otherwise
        it issues an access and a refresh token and stores exactly one
        unrevoked session row for the refresh token. */
    method Login(email: string, password: string, now: Time, accessJti: Uuid, refreshJti: Uuid, faults: set<Call>)
      returns (r: Result<(string, string), ServiceError>)
      requires Valid()
      modifies rtRepo
      ensures Valid()
      ensures var found := old(repo.FindByEmail(email));
        && (found.None? ==> r == Err(UserNotFound))
        && (found.Some? && !Matches(found.value.passwordHash, password) ==> r == Err(InvalidPassword))
        && (r.Err? ==> rtRepo.rows == old(rtRepo.rows))
        && (found.Some? && Matches(found.value.passwordHash, password) ==>
             var access := GenerateAccessToken(codec, Format(found.value.id), jwtCfg, now, Format(accessJti));
             var refresh := GenerateRefreshToken(codec, Format(found.value.id), jwtCfg, now, Format(refreshJti));
             && (r.Ok? <==> InsertSession !in faults && !HasJti(old(rtRepo.rows), Format(refreshJti)))
             && (r.Ok? ==> r.value == (access.0, refresh.0)
                           && rtRepo.rows == old(rtRepo.rows) + [AuthService.SessionRow(refresh.1, found.value.id)]))
    {
      var user := repo.FindByEmail(email);
      if user.None? {
        return Err(UserNotFound);
      }
      if !Matches(user.value.passwordHash, password) {
        return Err(InvalidPassword);
      }
      var (access, accessClaims) := GenerateAccessToken(codec, Format(user.value.id), jwtCfg, now, Format(accessJti));
      var (refresh, refreshClaims) := GenerateRefreshToken(codec, Format(user.value.id), jwtCfg, now, Format(refreshJti));
      var err := rtRepo.Create(AuthService.SessionRow(refreshClaims, user.value.id), InsertSession in faults);
      if err.Some? {
        return Err(Db(err.value));
      }
      return Ok((access, refresh));
    }

    /** `Refresh`: a refresh token that does not parse, or whose session row
        is revoked, expired or absent, is refused and changes nothing.
        Otherwise the old session is revoked (a failure to revoke is
        logged and otherwise ignored), a new pair is issued for the token's user, and its session
        row is stored. A `user_id` that is not a UUID panics after the revoke. */
    method Refresh(token: string, now: Time, accessJti: Uuid, refreshJti: Uuid, faults: set<Call>)
      returns (r: Result<(string, string), ServiceError>)
      requires Valid()
      modifies rtRepo
      ensures Valid()
      ensures var parsed := ParseRefreshToken(codec, token, jwtCfg.refresh, now);
        && (parsed.Err? ==> r == Err(InvalidToken) && rtRepo.rows == old(rtRepo.rows))
        && (parsed.Ok? && old(rtRepo.FindValid(parsed.value.jti, now)).None? ==>
              r == Err(InvalidToken) && rtRepo.rows == old(rtRepo.rows))
        && (parsed.Ok? && old(rtRepo.FindValid(parsed.value.jti, now)).Some? ==>
              var revoked := if RevokeSession in faults then old(rtRepo.rows)
                             else RevokeJti(old(rtRepo.rows), parsed.value.jti);
              var owner := Parse(parsed.value.userId);
              var access := GenerateAccessToken(codec, parsed.value.userId, jwtCfg, now, Format(accessJti));
              var refresh := GenerateRefreshToken(codec, parsed.value.userId, jwtCfg, now, Format(refreshJti));
              && (owner.None? ==> r == Err(Panicked))
              && (r.Ok? <==> owner.Some? && InsertSession !in faults && !HasJti(revoked, Format(refreshJti)))
              && (r.Ok? ==> r.value == (access.0, refresh.0)
                            && rtRepo.rows == revoked + [AuthService.SessionRow(refresh.1, owner.value)])
              && (r.Err? ==> rtRepo.rows == revoked))
      ensures r.Ok? && RevokeSession !in faults ==>
        forall later :: rtRepo.FindValid(ParseRefreshToken(codec, token, jwtCfg.refresh, now).value.jti, later).None?
    {
      var parsed := ParseRefreshToken(codec, token, jwtCfg.refresh, now);
      if parsed.Err? {
        return Err(InvalidToken);
      }
      var claims := parsed.value;
      var rt := rtRepo.FindValid(claims.jti, now);
      if rt.None? {
        return Err(InvalidToken);
      }
      var _ := rtRepo.RevokeByJti(rt.value.jti, RevokeSession in faults);
      ghost var revoked := rtRepo.rows;
      var (access, accessClaims) := GenerateAccessToken(codec, claims.userId, jwtCfg, now, Format(accessJti));
      var (refresh, refreshClaims) := GenerateRefreshToken(codec, claims.userId, jwtCfg, now, Format(refreshJti));
      var owner := Parse(claims.userId);
      if owner.None? {
        return Err(Panicked);
      }
      var err := rtRepo.Create(AuthService.SessionRow(refreshClaims, owner.value), InsertSession in faults);
      if err.Some? {
        return Err(Db(err.value));
      }
      if RevokeSession !in faults {
        forall later
          ensures FindValidIn(rtRepo.rows, claims.jti, later).None?
        {
          RevokedJtiNotFound(old(rtRepo.rows), claims.jti, later);
          var k :| 0 <= k < |revoked| && revoked[k] == rt.value.(revoked := true);
          FindValidAppend(revoked, AuthService.SessionRow(refreshClaims, owner.value), claims.jti, later);
        }
      }
      return Ok((access, refresh));
    }

    /** `Profile`: the user with this id, or GORM's not-found error. */
    function Profile(userId: Uuid): (r: Result<User, ServiceError>)
      reads repo
      ensures r.Ok? <==> Users.HasId(repo.rows, userId)
      ensures r.Ok? ==> r.value in repo.rows && r.value.id == userId
      ensures r.Err? ==> r.error == RecordNotFound
    {
      match repo.FindById(userId)
      case None => Err(RecordNotFound)
      case Some(user) => Ok(user)
    }

    /** `Logout`: revokes every live session of the user and returns the
        store's error unchanged. */
    method Logout(userId: Uuid, faults: set<Call>) returns (err: Option<ServiceError>)
      requires Valid()
      modifies rtRepo
      ensures Valid()
      ensures err == (if RevokeSessions in faults then Some(Db(Unavailable)) else None)
      ensures rtRepo.rows == if RevokeSessions in faults then old(rtRepo.rows) else RevokeUser(old(rtRepo.rows), userId)
      ensures err.None? ==> RevokeUser(rtRepo.rows, userId) == rtRepo.rows
    {
      var e := rtRepo.RevokeAllForUser(userId, RevokeSessions in faults);
      if e.Some? {
        return Some(Db(e.value));
      }
      RevokeUserFacts(old(rtRepo.rows), userId, 0);
      return None;
    }
  }
}
