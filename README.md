# LinkVault-micro core, modelled in Dafny

LinkVault-micro is a URL shortener built from Go microservices:

- the **auth-service** handles registration with e-mail verification, login, refresh-token rotation, logout, password reset, a daily cleanup of expired tokens and a gRPC interceptor that checks access tokens;
- the older **auth** module (`linkv-auth`) has the same JWTs without `iat`/`jti` and a Gin middleware. Its user service survives as auth-service/internal/service/user_service.go, which imports the `linkv-auth/...` packages;
- the **link-service** creates and deactivates short links, records clicks with their geolocation, computes click statistics and checks tokens through the auth-service.

The three services carry the same configuration helpers: required variables, TTLs written as Go durations or as days, and a comma-separated broker list.

This project models that core.

- **Time:** instants and durations are integer nanoseconds. `time.Now()` is one `now` parameter per call.
- **Fresh values:** fresh UUIDs, short codes and the IP lookup's answer enter as parameters.
- **Tables:** every database table is a class holding a `seq` of rows. Its repository methods follow the SQL of the source: the same `WHERE` clauses, the same `First` and the same unique indexes.
- **Store failures:** a failing store call is a `down` flag (repositories) or a member of a `faults` set (services). It fails atomically and is passed on as the source passes it on. The one exception is the auth-service's reads; see "## Left out".
- **Tokens:** a JWT is modelled by what a JWS reader finds in it: algorithm, signing key and claims. The compact serialization is an uninterpreted `Codec`, and every round-trip lemma assumes only that the codec reads back the one token at hand.
- **Passwords:** a bcrypt digest is modelled by the password it was made from. `GenerateFromPassword` refuses passwords over 72 UTF-8 bytes. `CompareHashAndPassword` has no length check: it compares the 72 bytes the Blowfish key schedule reads, which cycle through the password's UTF-8 bytes and a terminating NUL (`Bcrypt.EffectiveKey`). So a password of 72 bytes or more matches any extension of itself, and "a" matches "a", NUL, "a". Below 72 bytes, a password without NUL matches only itself.

Where a code comment and the code disagree, the model follows the code. The comment on `RefreshTokenRepository.DeleteExpired` says only expired tokens are removed. The query also removes every revoked one, and the model removes both (`RefreshTokens.Stale`).

## Model

| member | source | states |
|---|---|---|
| EnvConfig.GetEnv | auth-service/config/config.go:60-66 | the value is returned exactly when the variable is set (the empty string counts as set); otherwise `getEnv` panics with that key |
| EnvConfig.GetAll | auth-service/config/config.go:37-58 | a run of `getEnv` calls yields every value in order exactly when all are present, and otherwise panics on the first missing key |
| AuthServiceConfig.Load | auth-service/config/config.go:37-58 | loading succeeds exactly when every required variable is set; otherwise it panics naming the first one missing in reading order |
| AuthServiceConfig.LoadFields | auth-service/config/config.go:37-58 | each field is its variable; the TTLs go through `parseDurationWithDays` as written, so they wrap around in `int64`; and the broker list comes from `splitAndTrim`, which may be absent |
| AuthConfig.Load | auth/config/config.go:33-50 | the older service's configuration loads exactly when all its variables are set, and panics on the first missing one |
| AuthConfig.LoadFields | auth/config/config.go:33-50 | each field is the variable of its name, and both TTLs go through `parseDurationWithDays` as written, so they wrap around in `int64` |
| AuthServiceConfig.LongAccessTtlIsNegative | auth-service/config/config.go:50 | `ACCESS_EXP=106752d` yields a negative access TTL in the loaded configuration |
| AuthConfig.LongAccessTtlIsNegative | auth/config/config.go:44 | the same wrap-around in the older service's configuration |
| LinkConfig.Load | link-service/config/config.go:29-46 | the link-service configuration loads exactly when all required variables are set; `KAFKA_BROKERS` is optional |
| LinkConfig.LoadFields | link-service/config/config.go:29-46 | each field is its variable, and the broker list is `splitAndTrim` of a possibly absent variable |
| EnvConfig.ParseDurationWithDaysAsWritten | auth-service/config/config.go:68-84 | the code as written: "<n>d" reads as `n` hours times 24 in a wrapping `int64`, and any parse error gives 0; the result is always an `int64` |
| EnvConfig.ParseDurationWithDays | auth-service/config/config.go:68-84 | the corrected reading: the same, except that a day count overflowing `int64` is refused like a parse error (0) |
| EnvConfig.DaysFromHours | auth-service/config/config.go:69-76 | "<p>d" is 24 times what "<p>h" parses to, checked in one reading and wrapped in the other |
| EnvConfig.ParseDays | auth-service/config/config.go:68-84 | "<n>d" is exactly `n` days whenever that fits an `int64`, and 0 otherwise |
| EnvConfig.ParseDaysAsWritten | auth-service/config/config.go:68-84 | as written, "<n>d" is `24*n` hours wrapped to `int64`, or 0 when `n` hours alone do not fit |
| EnvConfig.DaysWrapAround | auth-service/config/config.go:76 | as written, "106752d" becomes -9223371273709551616 ns, a negative TTL; the corrected reading gives 0 |
| EnvConfig.ParseDurationWithDaysNonNegative | auth-service/config/config.go:68-84 | a TTL written without a leading minus never yields a negative duration (corrected reading) |
| EnvConfig.ParseDurationWithDaysAgrees | auth-service/config/config.go:68-84 | wherever the day count fits, the as-written and corrected readings agree |
| EnvConfig.SplitAndTrim | auth-service/config/config.go:86-98 | the result is nil for "" and otherwise the trimmed, non-empty comma-separated pieces in order |
| EnvConfig.TrimPieces | auth-service/config/config.go:90-97 | the loop keeps, in order, the trimmed form of every piece that is not blank |
| EnvConfig.CleanedElements | auth-service/config/config.go:91-95 | every broker kept is non-empty, has no surrounding white space, and is the trimmed form of some piece |
| EnvConfig.CleanedBlank | auth-service/config/config.go:86-98 | an input of only commas and blanks gives an empty list, which is not nil |
| EnvConfig.CleanedClean | auth-service/config/config.go:91-95 | pieces that are already trimmed and non-empty are kept unchanged |
| EnvConfig.SplitAndTrimJoin | auth-service/config/config.go:86-98 | joining clean broker names with commas and splitting them again gives the same list back |
| GoStrings.TrimPrefix | auth-service/internal/transport/grpc/interceptor.go:35 | the prefix is removed once when present, and the string is left alone otherwise |
| GoStrings.TrimSuffix | auth-service/config/config.go:70 | the suffix is removed once when present, and the string is left alone otherwise |
| GoStrings.TrimSpace | auth-service/config/config.go:92 | the result has no white space at either end |
| GoStrings.TrimSpaceSlice | auth-service/config/config.go:92 | `TrimSpace` keeps a contiguous middle part and cuts only white space |
| GoStrings.TrimSpaceEmpty | auth-service/config/config.go:92-93 | a piece trims to "" exactly when it is all white space |
| GoStrings.TrimSpaceOfTrimmed | auth-service/config/config.go:92 | a string with no surrounding white space is its own trim |
| GoStrings.Split | auth-service/config/config.go:91 | the split has at least one piece |
| GoStrings.SplitPiecesSepFree | auth-service/config/config.go:91 | no piece contains the separator |
| GoStrings.JoinSplit | auth-service/config/config.go:91 | joining the pieces with the separator gives back the input |
| GoStrings.SplitJoin | auth-service/config/config.go:91 | splitting a join of separator-free pieces gives back the pieces |
| GoTime.ParseDuration | auth-service/config/config.go:79-83 | "" is refused, "0" is 0, and every accepted duration fits an `int64` |
| GoTime.ParseHours | auth-service/config/config.go:71 | "<n>h" parses to `n` hours when that fits an `int64`, and fails otherwise |
| GoTime.Wrap64 | auth-service/config/config.go:76 | the result is an `int64`, equal to the exact value modulo 2^64, and unchanged when the value already fits |
| GoTime.NumericDate | auth-service/internal/jwt/jwt.go:23 | the instant truncated to whole seconds: never later, less than a second earlier, and a whole second |
| Jwt.NewClaims | auth-service/internal/jwt/jwt.go:19-27 | the claims carry the user, the type and the `jti`, an expiry within a second below `now+ttl`, and an issue time within a second below `now` |
| Jwt.GenerateAccessToken | auth-service/internal/jwt/jwt.go:18-34 | the returned claims are the access claims for the user, and they are exactly what the token decodes to: HS256 under the access secret |
| Jwt.GenerateRefreshToken | auth-service/internal/jwt/jwt.go:36-52 | the returned claims are the refresh claims for the user, and they are exactly what the token decodes to: HS256 under the refresh secret |
| Jwt.ParseWithClaims | auth-service/internal/jwt/jwt.go:55-60 | the token is accepted exactly when it is a JWS with an HMAC algorithm, was signed with this secret and is unexpired; it then yields the claims it carries |
| Jwt.ParseKind | auth-service/internal/jwt/jwt.go:61-65 | a verified token is accepted exactly when its `type` claim is the expected one |
| Jwt.ParseAccessToken | auth-service/internal/jwt/jwt.go:54-66 | an accepted token is an access token |
| Jwt.ParseRefreshToken | auth-service/internal/jwt/jwt.go:68-80 | an accepted token is a refresh token |
| Jwt.AccessRoundTrip | auth-service/internal/jwt/jwt.go:18-66 | an issued access token is accepted under the access secret exactly until its second-truncated expiry, and yields the claims it was issued with |
| Jwt.RefreshRoundTrip | auth-service/internal/jwt/jwt.go:36-80 | the same for refresh tokens under the refresh secret |
| Jwt.KindsAreDisjoint | auth-service/internal/jwt/jwt.go:62-76 | no token is accepted both as an access token and as a refresh token, even under one secret |
| Jwt.WrongSecretRefused | auth-service/internal/jwt/jwt.go:55-60 | an issued token is refused with a bad signature under any other secret |
| Jwt.NonPositiveTtlExpired | auth-service/internal/jwt/jwt.go:23 | with a TTL that is not positive, an access token is expired from the moment it is issued |
| Jwt.OnlyHmacAccepted | auth-service/internal/jwt/jwt.go:55-57 | tokens signed with "none", an asymmetric algorithm or an unknown one are always refused |
| LegacyJwt.LegacyClaims | auth/internal/jwt/jwt.go:18-24 | legacy claims carry the user, the type and a second-truncated expiry, with no `iat` and no `jti` |
| LegacyJwt.GenerateAccessToken | auth/internal/jwt/jwt.go:17-27 | the token is HS256 under the access secret and decodes to the user's legacy access claims: expiry only, no `iat`, no `jti` |
| LegacyJwt.GenerateRefreshToken | auth/internal/jwt/jwt.go:29-39 | the token is HS256 under the refresh secret and decodes to the user's legacy refresh claims |
| LegacyJwt.AccessRoundTrip | auth/internal/jwt/jwt.go:17-53 | a legacy access token is accepted until its expiry and yields its user id |
| LegacyJwt.RefreshRoundTrip | auth/internal/jwt/jwt.go:29-67 | a legacy refresh token is accepted until its expiry under the refresh secret and is never an access token |
| Bcrypt.Utf8Length | auth-service/internal/service/auth_service.go:96 | the UTF-8 byte length lies between one and four bytes per character |
| Bcrypt.GenerateFromPassword | auth-service/internal/service/auth_service.go:95-101 | hashing succeeds exactly for passwords of at most 72 bytes; the digest accepts that password, and accepts another exactly when its 72-byte effective key is the same |
| Bcrypt.ShortPasswordsExact | auth-service/internal/service/auth_service.go:112 | `CompareHashAndPassword` between two passwords of fewer than 72 bytes without NUL succeeds exactly when they are equal |
| Bcrypt.LongPasswordTruncated | auth-service/internal/service/auth_service.go:112 | a digest of a password of at least 72 bytes accepts that password with anything appended |
| Bcrypt.NulPaddingMatches | auth-service/internal/service/user_service.go:78 | the digest of "a" accepts the different password "a", NUL, "a" |
| Uuid.Format | auth-service/internal/service/auth_service.go:116 | `String()` has 36 characters with dashes at 8, 13, 18 and 23 |
| Uuid.Parse | auth-service/internal/transport/grpc/interceptor.go:40-43 | text that has none of the four accepted lengths is refused |
| Uuid.ParseFormat | auth-service/internal/transport/grpc/interceptor.go:40 | parsing the text of a UUID gives the UUID back |
| Uuid.ParseRawHex | auth-service/internal/transport/grpc/interceptor.go:40 | the bare 32-digit form parses to the same UUID |
| Uuid.FormatInjective | auth-service/internal/service/auth_service.go:116 | distinct UUIDs have distinct text |
| GrpcAuth.BearerToken | auth-service/internal/transport/grpc/interceptor.go:35 | the token is what follows "Bearer " in the header |
| Users.FindByEmailIn | auth-service/internal/repository/auth_repository.go:20-26 | a user found has that e-mail, and none is found exactly when no row has it |
| Users.FindByIdIn | auth-service/internal/repository/auth_repository.go:32-38 | a user found has that id, and none is found exactly when no row has it |
| Users.UserRepository.FindByEmail | auth-service/internal/repository/auth_repository.go:20-26 | the repository lookup by e-mail, as `FindByEmailIn` |
| Users.UserRepository.FindById | auth-service/internal/repository/auth_repository.go:32-38 | the repository lookup by id, as `FindByIdIn` |
| Users.UserRepository.Create | auth-service/internal/repository/auth_repository.go:28-30 | inserts the new user with a fresh id, unverified, stamped `now`; refused with a unique violation on a taken id or e-mail, or when the store is down |
| Users.UserRepository.MarkEmailVerified | auth-service/internal/repository/auth_repository.go:40-42 | sets `email_verified` on that id's row; an unknown id is no error |
| Users.UserRepository.UpdatePassword | auth-service/internal/repository/auth_repository.go:44-47 | writes the new digest into that id's row |
| Users.FindByEmailUnique | auth-service/internal/models/user.go:13 | with unique e-mails, the lookup returns the one user holding the address |
| Users.FindByIdUnique | auth-service/internal/models/user.go:19-22 | with unique ids, the lookup returns the one user with that id |
| Users.SetVerifiedFacts | auth-service/internal/repository/auth_repository.go:40-42 | only that user changes, only `email_verified` changes, both keys stay unique, and a repeat changes nothing |
| Users.SetPasswordFacts | auth-service/internal/repository/auth_repository.go:44-47 | only that user's digest changes, and both keys stay unique |
| Users.CreatedFound | auth-service/internal/repository/auth_repository.go:28-30 | after an insert with a fresh e-mail, e-mails stay unique and the user is found by it |
| RefreshTokens.FindValidIn | auth-service/internal/repository/refresh_token_repository.go:24-30 | a row found has the `jti` and is unrevoked and unexpired, and none is found exactly when no such row exists |
| RefreshTokens.RefreshTokenRepository.Create | auth-service/internal/repository/refresh_token_repository.go:20-22 | inserts the row unless its `jti` is taken or the store is down |
| RefreshTokens.RefreshTokenRepository.FindValid | auth-service/internal/repository/refresh_token_repository.go:24-30 | the live row with the `jti` as of `now`, as `FindValidIn` |
| RefreshTokens.RefreshTokenRepository.RevokeByJti | auth-service/internal/repository/refresh_token_repository.go:32-34 | revokes every row with the `jti` |
| RefreshTokens.RefreshTokenRepository.RevokeAllForUser | auth-service/internal/repository/refresh_token_repository.go:36-38 | revokes every unrevoked row of the user |
| RefreshTokens.RefreshTokenRepository.DeleteExpired | auth-service/internal/repository/refresh_token_repository.go:41-44 | removes the expired and the revoked rows and reports how many were removed |
| RefreshTokens.RevokeWhereUnique | auth-service/internal/models/refresh_token.go:12 | revoking keeps `jti` unique |
| RefreshTokens.SweepUnique | auth-service/internal/models/refresh_token.go:12 | deleting keeps `jti` unique |
| RefreshTokens.RevokedJtiNotFound | auth-service/internal/repository/refresh_token_repository.go:32-34 | after `RevokeByJTI` that token is never valid again |
| RefreshTokens.RevokeJtiOthers | auth-service/internal/repository/refresh_token_repository.go:32-34 | revoking one `jti` leaves every other lookup unchanged |
| RefreshTokens.FindValidAppend | auth-service/internal/repository/refresh_token_repository.go:20-22 | inserting a row with another `jti` leaves a lookup unchanged |
| RefreshTokens.RevokeUserFacts | auth-service/internal/repository/refresh_token_repository.go:36-38 | after `RevokeAllForUser` every row of the user is revoked, other users' rows are untouched, and a repeat changes nothing |
| RefreshTokens.RevokeUserFind | auth-service/internal/repository/refresh_token_repository.go:36-38 | afterwards every lookup answers as if the user's rows were gone |
| RefreshTokens.SweepKeepsValid | auth-service/internal/repository/refresh_token_repository.go:41-44 | the sweep never changes a lookup at `now` or later |
| RefreshTokens.SweepExact | auth-service/internal/repository/refresh_token_repository.go:42 | the rows kept are exactly those neither expired nor revoked |
| RefreshTokens.SweepCount | auth-service/internal/repository/refresh_token_repository.go:43 | the reported count is the number of stale rows |
| RefreshTokens.SweepIdempotent | auth-service/internal/repository/refresh_token_repository.go:41-44 | sweeping twice at one instant removes nothing more |
| OneShotTokens.FindByTokenIn | auth-service/internal/repository/email_verification_token_repository.go:23-29 | a row found holds the token and is unused and unexpired, and none is found exactly when no such row exists |
| OneShotTokens.LatestByUser | auth-service/internal/repository/password_reset_token_repository.go:40-46 | a row found is the user's and was created no earlier than any other of the user's rows; none is found exactly when the user has no row |
| OneShotTokens.MarkUsedKeepsKeys | auth-service/internal/models/email_verification_token.go:13 | marking a row used keeps ids and tokens unique |
| OneShotTokens.SweepKeepsKeys | auth-service/internal/models/email_verification_token.go:13 | deleting keeps ids and tokens unique |
| OneShotTokens.MarkedNotFound | auth-service/internal/repository/email_verification_token_repository.go:31-33 | once marked used, a row is never returned by a lookup again |
| OneShotTokens.SingleUse | auth-service/internal/repository/email_verification_token_repository.go:23-33 | with unique tokens, a token found and then marked used is never found again: a link works once |
| OneShotTokens.MarkUsedOthers | auth-service/internal/repository/email_verification_token_repository.go:31-33 | marking one row leaves every lookup that did not return it unchanged |
| OneShotTokens.SweepKeepsUsable | auth-service/internal/repository/email_verification_token_repository.go:35-38 | the sweep never changes a lookup at `now` or later |
| OneShotTokens.SweepTokensExact | auth-service/internal/repository/email_verification_token_repository.go:36 | the rows kept are exactly those neither expired nor used |
| OneShotTokens.SweepTokensCount | auth-service/internal/repository/email_verification_token_repository.go:37 | the reported count is the number of rows removed |
| OneShotTokens.LatestAfterInsert | auth-service/internal/repository/password_reset_token_repository.go:40-46 | a row newer than all of the user's others becomes the user's latest |
| EmailVerificationTokens.EmailVerificationTokenRepository.Create | auth-service/internal/repository/email_verification_token_repository.go:19-21 | inserts the unused row with a fresh id, stamped `now`, unless the id or the token is taken or the store is down |
| EmailVerificationTokens.EmailVerificationTokenRepository.FindByToken | auth-service/internal/repository/email_verification_token_repository.go:23-29 | the usable row holding the token, as `FindByTokenIn` |
| EmailVerificationTokens.EmailVerificationTokenRepository.MarkUsed | auth-service/internal/repository/email_verification_token_repository.go:31-33 | marks that id's row used |
| EmailVerificationTokens.EmailVerificationTokenRepository.DeleteExpired | auth-service/internal/repository/email_verification_token_repository.go:35-38 | removes the expired and used rows and reports how many |
| PasswordResetTokens.PasswordResetTokenRepository.Create | auth-service/internal/repository/password_reset_token_repository.go:19-21 | inserts the unused row with a fresh id unless the id is taken or the store is down |
| PasswordResetTokens.PasswordResetTokenRepository.FindByToken | auth-service/internal/repository/password_reset_token_repository.go:23-29 | the usable row holding the token |
| PasswordResetTokens.PasswordResetTokenRepository.MarkUsed | auth-service/internal/repository/password_reset_token_repository.go:31-33 | marks that id's row used |
| PasswordResetTokens.PasswordResetTokenRepository.DeleteExpired | auth-service/internal/repository/password_reset_token_repository.go:35-38 | removes the expired and used rows and reports how many |
| PasswordResetTokens.PasswordResetTokenRepository.FindLatestByUser | auth-service/internal/repository/password_reset_token_repository.go:40-46 | the user's most recently created row, used or not, or none when the user has none |
| Mail.EmailProducer.SendEmail | auth-service/internal/service/auth_service.go:79-87 | publishes exactly the one message under its key, or fails and publishes nothing |
| AuthService.UserService.Register | auth-service/internal/service/auth_service.go:49-93 | a known e-mail and an over-long password are refused. Otherwise the user is stored with the password's digest, then a 24-hour verification token, and the e-mail is sent only when both inserts succeed. A failed send does not fail the call, and an earlier failure keeps what was stored |
| AuthService.UserService.Login | auth-service/internal/service/auth_service.go:106-137 | an unknown e-mail or a wrong password changes nothing; otherwise the call returns the two tokens issued for the user and stores exactly one unrevoked session row for the refresh token |
| AuthService.UserService.Refresh | auth-service/internal/service/auth_service.go:141-172 | an unparsable refresh token, or one whose session is not live, is refused and changes nothing. Otherwise the old session is revoked (a failed revoke is ignored) and a new pair is issued and stored; a `user_id` that is not a UUID panics. After success the old token never refreshes again |
| AuthService.UserService.Profile | auth-service/internal/service/auth_service.go:174-181 | the user with that id, or the not-found error exactly when there is none |
| AuthService.UserService.Logout | auth-service/internal/service/auth_service.go:183-188 | revokes every live session of the user, passing a store error on; afterwards a second logout changes nothing |
| AuthService.UserService.VerifyEmail | auth-service/internal/service/auth_service.go:190-205 | an unknown, used or expired token is refused; otherwise the user is marked verified, then the token is spent, and after success the token is never accepted again |
| AuthService.UserService.ResendVerificationEmail | auth-service/internal/service/auth_service.go:209-241 | an unknown or already verified user is refused; otherwise a new 24-hour token is stored and sent, and a failed send is returned while the token stays stored |
| AuthService.UserService.RequestPasswordReset | auth-service/internal/service/auth_service.go:243-277 | an unknown e-mail is refused; while the latest reset token is unused and unexpired nothing is sent and nil is returned; otherwise a 30-minute token is stored and sent |
| AuthService.UserService.ConfirmPasswordReset | auth-service/internal/service/auth_service.go:279-300 | an unknown, used or expired token, a vanished user or an over-long password is refused. Otherwise the digest is replaced, then the token is spent, and after success that row is never accepted again |
| LinkvAuthService.UserService.Register | auth-service/internal/service/user_service.go:34-58 | a known e-mail is refused; otherwise exactly one user is stored, and its digest matches the password |
| LinkvAuthService.UserService.Login | auth-service/internal/service/user_service.go:71-107 | as the auth-service's login: tokens and one session row on success, no change on failure |
| LinkvAuthService.UserService.Refresh | auth-service/internal/service/user_service.go:111-144 | as the auth-service's refresh rotation: a failed revoke is logged, not returned |
| LinkvAuthService.UserService.Profile | auth-service/internal/service/user_service.go:146-153 | the user with that id, or not found |
| LinkvAuthService.UserService.Logout | auth-service/internal/service/user_service.go:155-160 | revokes all the user's sessions; a repeat changes nothing |
| Maintenance.Scheduler.constructor | auth-service/internal/maintenance/cleanup.go:21-25 | a new scheduler has no job registered, is not started, and has logged nothing |
| Maintenance.Scheduler.Start | auth-service/internal/maintenance/cleanup.go:27-46 | when registering the 03:00 daily job fails, that error is returned and nothing starts; otherwise the job is registered and the runner started |
| Maintenance.Scheduler.CleanupExpired | auth-service/internal/maintenance/cleanup.go:48-77 | with one `now`, each present repository is swept in turn and a failure does not stop the next sweep. Each sweep logs its error or its positive row count. After a refresh sweep no stale row is left and no lookup from `now` on changes |
| Maintenance.Scheduler.SweepRefreshTokens | auth-service/internal/maintenance/cleanup.go:51-58 | the refresh-token block: sweep, then log the error or a positive count |
| Maintenance.Scheduler.SweepEmailVerificationTokens | auth-service/internal/maintenance/cleanup.go:60-67 | the verification-token block, likewise |
| Maintenance.Scheduler.SweepPasswordResetTokens | auth-service/internal/maintenance/cleanup.go:69-76 | the reset-token block, likewise |
| AuthInterceptor.Intercept | auth-service/internal/transport/grpc/interceptor.go:17-47 | unlisted methods pass with the context as it came, and missing metadata is refused; a protected call that is let through always carries a user id |
| AuthInterceptor.RequiredMethods | auth-service/internal/transport/grpc/interceptor.go:49-52 | exactly `GetProfile` and `Logout` need a token |
| AuthInterceptor.InterceptAccepts | auth-service/internal/transport/grpc/interceptor.go:31-45 | a protected call gets `user_id` = `u` exactly when the first `authorization` value is "Bearer " plus an access token that parses and whose `user_id` is the text of `u` |
| AuthInterceptor.RefreshTokenRejected | auth-service/internal/transport/grpc/interceptor.go:36-39 | a refresh token never opens a protected method, even when both secrets are equal |
| AuthInterceptor.IssuedTokenAccepted | auth-service/internal/transport/grpc/interceptor.go:36-45 | an access token issued for `u` opens a protected method until it expires, and the handler sees `u` |
| Middleware.JwtAuth | auth/internal/middleware/middleware.go:12-28 | a missing or non-Bearer header, or a token that is not a valid access token, aborts with 401 and the matching message; otherwise `user_id` is set to the token's user and the chain continues |
| Middleware.OptionalJwtAuth | auth/internal/middleware/optional_jwt.go:11-23 | the request is never aborted and always continues; `user_id` is set exactly when a Bearer header carries a valid access token |
| LinkInterceptor.RequireAuth | link-service/internal/transport/grpc/interceptor.go:17-51 | unlisted methods pass unchanged and missing metadata is refused; a protected call that is let through carries a user id. The installed `LinkInterceptor.Auth` is this check over the shipped table |
| LinkInterceptor.OptionalAuth | link-service/internal/transport/grpc/interceptor.go:53-87 | unlisted methods pass unchanged. The installed `LinkInterceptor.Optional` is this check over the shipped table |
| LinkInterceptor.AuthNeverRejects | link-service/internal/transport/grpc/interceptor.go:89 | with the shipped empty table, `AuthInterceptor` lets every call through unchanged |
| LinkInterceptor.RequireAuthRefusesInvalid | link-service/internal/transport/grpc/interceptor.go:40-42 | for a protected method, a failed validation call or a reply saying not valid is refused |
| LinkInterceptor.RequireAuthAccepts | link-service/internal/transport/grpc/interceptor.go:31-48 | a protected call gets `user_id` = `u` exactly when the Bearer token is accepted and its `user_id` parses to `u` |
| LinkInterceptor.OptionalMethods | link-service/internal/transport/grpc/interceptor.go:91-93 | only `CreateShortLink` takes an optional token |
| LinkInterceptor.OptionalRejectsOnlyBadUserId | link-service/internal/transport/grpc/interceptor.go:68-83 | the optional check refuses a call exactly when an accepted token's `user_id` is not a UUID |
| LinkInterceptor.OptionalSetsUser | link-service/internal/transport/grpc/interceptor.go:68-82 | the optional check sets `user_id` = `u` exactly when the method is listed and an accepted Bearer token's `user_id` parses to `u` |
| ShortLinks.ShortLinkRepository.Create | link-service/internal/repository/short_link_repository.go:21-23 | stores the link with a fresh id and creation time, unless the id or the short code is taken or the store is down |
| ShortLinks.ShortLinkRepository.GetByShortCode | link-service/internal/repository/short_link_repository.go:25-27 | a failing query returns its error. Otherwise the link returned has the code and is active and unexpired, and `ErrRecordNotFound` comes back exactly when no such link exists |
| ShortLinks.ShortLinkRepository.GetByUserID | link-service/internal/repository/short_link_repository.go:29-35 | a failing query returns its error. Otherwise the result is exactly the user's active, unexpired links, and finding none is no error |
| ShortLinks.ShortLinkRepository.DeactivateByID | link-service/internal/repository/short_link_repository.go:37-41 | clears `is_active` on the owner's active link with that id; no match is no error |
| ShortLinks.ShortLinkRepository.GetByID | link-service/internal/repository/short_link_repository.go:43-49 | a failing query returns its error. Otherwise the link returned has the id and is active and unexpired, and `ErrRecordNotFound` comes back exactly when no such link exists |
| ShortLinks.DeactivateKeepsKeys | link-service/internal/models/short_link.go:14 | deactivation keeps ids and short codes unique |
| ShortLinks.DeactivateFacts | link-service/internal/repository/short_link_repository.go:37-41 | the owner's link with that id ends inactive, every other row is unchanged, and a repeat changes nothing |
| ShortLinks.DeactivatedNotFound | link-service/internal/repository/short_link_repository.go:25-49 | after its owner deactivates it, a link is found neither by id nor by code, at any time |
| ShortLinks.ByUserUnchanged | link-service/internal/repository/short_link_repository.go:29-41 | another user's list is unchanged by a deactivation, whatever the id |
| ShortLinks.FoundByCode | link-service/internal/repository/short_link_repository.go:25-27 | with unique codes, a stored link is found by its code while it is active and unexpired |
| ShortLinkService.ExpiryFor | link-service/internal/service/short_link_service.go:30-39 | a link has no expiry exactly when it has an owner and no explicit lifetime; otherwise it expires after the explicit lifetime, or after a week for an anonymous link |
| ShortLinkService.ShortLinkService.CreateShortLink | link-service/internal/service/short_link_service.go:29-61 | a failed code generation or insert returns its error and stores nothing; otherwise the active link is stored and returned, and it is found by its code until it expires |
| ShortLinkService.ShortLinkService.GetShortLinkByCode | link-service/internal/service/short_link_service.go:80-88 | the repository's answer passed on: the query's error, or the active, unexpired link with the code, or `ErrRecordNotFound` exactly when there is none |
| ShortLinkService.ShortLinkService.GetLinksUser | link-service/internal/service/short_link_service.go:90-97 | the repository's answer passed on: the query's error, or exactly the user's active, unexpired links |
| ShortLinkService.ShortLinkService.GetByID | link-service/internal/service/short_link_service.go:108-110 | the repository's answer passed on: the query's error, or the active, unexpired link with the id, or `ErrRecordNotFound` exactly when there is none |
| ShortLinkService.ShortLinkService.DeactivateShortLink | link-service/internal/service/short_link_service.go:99-106 | the repository's deactivation, with its error passed on |
| ShortLinkService.NonPositiveLifetimeUnavailable | link-service/internal/service/short_link_service.go:31-33 | a link created with a lifetime that is not positive is never handed out |
| Clicks.DayOf | link-service/internal/repository/click_repository.go:73-94 | `DATE(clicked_at)` as a day number: the instant lies within that day |
| Clicks.ScanGroups | link-service/internal/repository/click_repository.go:63-68 | the scan loop builds exactly the map of the grouped rows |
| Clicks.ClickRepository.Create | link-service/internal/repository/click_repository.go:20-22 | stores the click under a fresh id, unless the id is taken or the store is down |
| Clicks.ClickRepository.GetClicksByShortLinkID | link-service/internal/repository/click_repository.go:24-28 | exactly the link's clicks, as many as the link's id occurs in the table |
| Clicks.ClickRepository.GetCount | link-service/internal/repository/click_repository.go:30-36 | the number of the link's clicks |
| Clicks.ClickRepository.GetUniqueIPCount | link-service/internal/repository/click_repository.go:39-46 | the number of distinct IPs among the link's clicks, which is at most the number of clicks |
| Clicks.ClickRepository.GetUniqueIPs | link-service/internal/repository/click_repository.go:97-104 | each IP that clicked the link, once |
| Clicks.ClickRepository.GetUniqueCountries | link-service/internal/repository/click_repository.go:107-114 | each country the link was clicked from, once |
| Clicks.ClickRepository.GetCountryStats | link-service/internal/repository/click_repository.go:49-70 | each country the link was clicked from, with its number of clicks; an empty map and the error when the query fails |
| Clicks.ClickRepository.GetDailyStats | link-service/internal/repository/click_repository.go:73-94 | each day the link was clicked on, with its number of clicks; an empty map and the error when the query fails |
| Clicks.ClickRepository.DeleteClicksByShortLinkID | link-service/internal/repository/click_repository.go:117-119 | removes exactly the link's clicks |
| Clicks.OfLinkCount | link-service/internal/repository/click_repository.go:30-36 | a link's click count is how often its id occurs in the table |
| Clicks.ColumnMembers | link-service/internal/repository/click_repository.go:97-114 | the IPs and countries of a link's clicks are exactly those of the clicks with that link |
| Clicks.CountryStatsSum | link-service/internal/repository/click_repository.go:49-70 | the per-country counts add up to the link's total, and the countries counted are exactly those listed |
| Clicks.DailyStatsSum | link-service/internal/repository/click_repository.go:73-94 | the per-day counts add up to the link's total |
| Clicks.DeleteFacts | link-service/internal/repository/click_repository.go:117-119 | after the delete the link has no clicks, and every other link's clicks are unchanged |
| Clicks.CreateFacts | link-service/internal/repository/click_repository.go:20-22 | a stored click is one more click of its link and of no other |
| ClickService.ClickService.CreateClick | link-service/internal/service/click_service.go:27-48 | stores the click with the lookup's country and region, or empty strings when the lookup failed; the link gains exactly that click and no other link gains one |
| ClickService.Answered | link-service/internal/service/click_service.go:60-104 | counts the queries that succeed before the first failing one |
| ClickService.ClickService.GetStats | link-service/internal/service/click_service.go:60-104 | the first failing query's error is returned with the fields filled in before it; with no failure the result is the link's complete statistics |
| ClickService.FullStatsFacts | link-service/internal/service/click_service.go:60-104 | the complete statistics agree: unique IPs ≤ total, counts match their lists, per-country and per-day counts sum to the total, and the countries counted are those listed |
| ClickService.PartialCountriesAgree | link-service/internal/service/click_service.go:83-88 | whichever query fails, `CountriesCount` is the length of `Countries` |
| ClickService.NoFaultsComplete | link-service/internal/service/click_service.go:60-104 | with no failing query the statistics are complete |
| ClickService.SortNewestFirst | link-service/internal/service/click_service.go:111 | the clicks end newest first and are a permutation of the input |
| ClickService.ClickService.GetClicks | link-service/internal/service/click_service.go:106-113 | exactly the link's clicks, newest first; the error when the query fails |

## Left out

- auth-service/internal/service/auth_service.go and user_service.go are two alternative versions of one `UserService`. Both are in `package service`, and both declare `ErrUserExists`, `UserService` and `hashedPassword` (auth_service.go:17, 19, 95; user_service.go:16, 18, 60), so that package does not compile with both files in it. Each file is modelled in a module of its own (`AuthService`, `LinkvAuthService`), and which of them a build would use is not modelled.
- Logging (zap and `log.Printf`) is not modelled, except the cleanup scheduler's entries: the error of a failed sweep and the count of a sweep that removed rows (`Maintenance.Scheduler.log`). Neither is printing, HTTP and gRPC transport handlers, `main` wiring, the notification-service, the Kafka writer, or the cron runner's timing, goroutines and shutdown. None of these changes the state modelled here.
- Concurrency is not modelled: every call runs alone. Two refreshes racing on one token would both pass `FindValid`.
- The JWS compact serialization and HMAC are abstract (a `Codec`, and a signature checks under a secret exactly when made with it). Unforgeability is assumed, not proved. Signing never fails in the model, so the `SignedString` error paths are absent.
- Every read in a service call uses one `now`. The source calls `time.Now()` several times in a call, microseconds apart.
- `time.Now().Add(d)` overflow is not modelled: instants are unbounded integers.
- GoTime.ParseDuration: fractional segments are modelled with exact rational scaling. Go's float rounding of very long fractions is not reproduced.
- A Go string is a byte string; here a string is a sequence of characters. `Uuid.Parse` reads one character as one byte, and `TrimSpace` works on characters.
- `Start` also runs `cleanupExpired` once in a goroutine (auth-service/internal/maintenance/cleanup.go:37-38). That run deletes tokens, and its effect is one `Scheduler.CleanupExpired` at an unspecified instant. It is not modelled, because nothing fixes when it runs relative to other calls.
- The auth-service's reads have no failure path: `FindByEmail`, `FindByID`, `FindValid`, both `FindByToken`s and `FindLatestByUser`. A failing query is modelled as "no row". The services that call them treat any error as not found anyway.
- The cast of a `string` id to `uuid` in the click and `GetByID` queries is not modelled: ids are UUIDs already, and a malformed id string is not represented.
- `DATE()` formatting, its text and its time zone are not modelled. Days are integer day numbers in UTC, and the daily map is keyed by them rather than by `map[string]int64` text.
- The grouped click queries return a nil map on a query error, and the `Stats` fields that `GetStats` has not reached when a query fails stay nil. The model gives an empty map or sequence there. `GROUP BY` and `DISTINCT` order is the first-occurrence order; SQL promises no order.
- ClickService.SortNewestFirst: `sort.Slice` is modelled by an insertion sort. Only its outcome is claimed, not its algorithm or the order of equal times.
- `rows.Scan` errors inside the grouped click queries are not modelled; only the query error is.
- `ShortLinkService.GetOriginalURL` calls a repository method that `short_link_repository.go` does not define, so it is not part of this model.
- The link-service's own cleanup job (`link-service/internal/maintenance/cleanup.go`) is not part of this model.
- A refresh-token row keeps only the columns a query reads: `jti`, `user_id`, `expires_at` and `revoked`. The `id` primary key, `created_at` and the `BeforeCreate` hook that fills `id` (auth-service/internal/models/refresh_token.go:11, 16, 19-24) are not modelled, because no query reads them.
- The foreign key from `clicks.short_link_id` to `short_links` is not enforced.
- The declaration of the `password_reset_tokens` model is not among the source files. The table is taken to be shaped like `email_verification_tokens`: primary key `id`, no unique index on `token`.
- AuthService.UserService.ConfirmPasswordReset: after success the spent row is never returned again. Another row with the same token text may still be returned, because this model has no unique index on reset tokens.
- Order among rows that tie: GORM's `First` appends `ORDER BY id` after any order the query sets. So `FindLatestByUser` (`ORDER BY created_at DESC`) gives equal `created_at` to the row with the smallest `id`. `PasswordResetTokens.PasswordResetTokenRepository.FindByToken` likewise returns the smallest `id` among rows sharing a token. The model takes the first such row in table order in both cases. UUIDs are not ordered in this model.
- `FindLatestByUser` errors other than not-found are swallowed by `RequestPasswordReset`, as in the source.
- The bcrypt cost, salt and digest text are abstract.
- Bcrypt.Matches: the Blowfish rounds and the digest bytes are not modelled, so two passwords match exactly when their 72-byte effective keys agree, with no collisions beyond that.
- The subjects of the e-mails are kept verbatim; the template data holds only strings.

## Findings

| source | as written | input that shows it | evidently intended | confidence | as-written member | corrected member |
|---|---|---|---|---|---|---|
| auth-service/config/config.go:76 | `time.Duration(24) * days` multiplies in `int64` and wraps around once the days exceed about 106751. The same line is at auth/config/config.go:68 in the older service | `ACCESS_EXP=106752d` gives -9223371273709551616 ns, a negative TTL, so every token is born expired | a TTL too large for a `time.Duration` is refused like any parse error (0), never negative | not executed | EnvConfig.ParseDurationWithDaysAsWritten (EnvConfig.DaysWrapAround) | EnvConfig.ParseDurationWithDays (EnvConfig.ParseDurationWithDaysNonNegative) |
