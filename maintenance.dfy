/** The auth-service's periodic cleanup: a scheduler that, once a day and
    once at start, deletes the refresh tokens that are expired or revoked and
    the e-mail verification and password-reset tokens that are expired or
    used. Each repository it was given may be absent; a sweep that fails is
    logged and the next one still runs. */
module Maintenance {
  import opened Wrappers
  import opened GoTime
  import opened Store
  import opened RefreshTokens
  import opened OneShotTokens
  import opened EmailVerificationTokens
  import opened PasswordResetTokens

  /** The three tables the cleanup sweeps, in the order it sweeps them. */
  datatype Table = RefreshTokensTable | EmailVerificationTokensTable | PasswordResetTokensTable

  /** A line of the zap log: the failed sweep's error, or how many rows a sweep removed. */
  datatype LogEntry = Error(table: Table, err: DbError) | Info(table: Table, count: nat)

  /** The cron expression of the daily job: 03:00 every day. */
  const DailySpec: string := "0 3 * * *"

  /** What one sweep writes to the log: nothing when the repository is
      absent, its error when it fails, otherwise the number of rows removed,
      and only when that number is positive. */
  function Report(table: Table, present: bool, err: Option<DbError>, count: nat): (r: seq<LogEntry>)
    ensures !present ==> r == []
    ensures present && err.Some? ==> r == [Error(table, err.value)]
    ensures present && err.None? ==> (r == [] <==> count == 0)
    ensures present && err.None? && count > 0 ==> r == [Info(table, count)]
  {
    if !present then []
    else if err.Some? then [Error(table, err.value)]
    else if count > 0 then [Info(table, count)]
    else []
  }

  /** The log after a failing or a succeeding sweep of a present repository:
      what `Report` writes when the store is down or when it removes the
      stale rows. */
  function Swept(table: Table, present: bool, faults: set<Table>, stale: nat): (r: seq<LogEntry>)
    ensures |r| <= 1
    ensures present && table in faults ==> r == [Error(table, Unavailable)]
    ensures present && table !in faults ==> (r == [] <==> stale == 0)
  {
    Report(table, present, if table in faults then Some(Unavailable) else None, if table in faults then 0 else stale)
  }

  class Scheduler {
    const rtRepo: RefreshTokenRepository?
    const emailTokenRepo: EmailVerificationTokenRepository?
    const passwordResetRepo: PasswordResetTokenRepository?
    /** What the scheduler has logged, oldest first. */
    var log: seq<LogEntry>
    /** The cron expressions of the jobs registered with the cron runner. */
    var jobs: seq<string>
    /** Whether the cron runner has been started. */
    var started: bool

    ghost predicate Valid()
      reads this, rtRepo, emailTokenRepo, passwordResetRepo
    {
      (rtRepo != null ==> rtRepo.Valid())
      && (emailTokenRepo != null ==> emailTokenRepo.Valid())
      && (passwordResetRepo != null ==> passwordResetRepo.Valid())
    }

    /** `NewScheduler`: nothing registered, nothing started, nothing logged. */
    constructor (rtRepo: RefreshTokenRepository?, emailTokenRepo: EmailVerificationTokenRepository?,
                 passwordResetRepo: PasswordResetTokenRepository?)
      ensures this.rtRepo == rtRepo && this.emailTokenRepo == emailTokenRepo
      ensures this.passwordResetRepo == passwordResetRepo
      ensures log == [] && jobs == [] && !started
    {
      this.rtRepo := rtRepo;
      this.emailTokenRepo := emailTokenRepo;
      this.passwordResetRepo := passwordResetRepo;
      log := [];
      jobs := [];
      started := false;
    }

    /** `Start`: register the daily cleanup and start the runner. When the
        registration fails, its error is returned and nothing is started. */
    method Start(addErr: Option<string>) returns (err: Option<string>)
      modifies this
      ensures err == addErr
      ensures addErr.Some? ==> jobs == old(jobs) && started == old(started)
      ensures addErr.None? ==> jobs == old(jobs) + [DailySpec] && started
      ensures log == old(log)
    {
      if addErr.Some? {
        return addErr;
      }
      jobs := jobs + [DailySpec];
      started := true;
      return None;
    }

    /** `cleanupExpired`: with one `now`, sweep each present repository in
        turn (refresh, e-mail verification, password reset). A sweep whose
        table is in `faults` fails, is logged, and leaves its table as it was;
        the following sweeps run regardless. */
    method CleanupExpired(now: Time, faults: set<Table>)
      requires Valid()
      modifies this, rtRepo, emailTokenRepo, passwordResetRepo
      ensures Valid()
      ensures rtRepo != null ==>
        rtRepo.rows == (if RefreshTokensTable in faults then old(rtRepo.rows) else Sweep(old(rtRepo.rows), now))
      ensures emailTokenRepo != null ==>
        emailTokenRepo.rows == (if EmailVerificationTokensTable in faults then old(emailTokenRepo.rows) else SweepTokens(old(emailTokenRepo.rows), now))
      ensures passwordResetRepo != null ==>
        passwordResetRepo.rows == (if PasswordResetTokensTable in faults then old(passwordResetRepo.rows) else SweepTokens(old(passwordResetRepo.rows), now))
      ensures log == old(log)
        + Swept(RefreshTokensTable, rtRepo != null, faults,
                if rtRepo == null then 0 else |StaleRows(old(rtRepo.rows), now)|)
        + Swept(EmailVerificationTokensTable, emailTokenRepo != null, faults,
                if emailTokenRepo == null then 0 else |SpentRows(old(emailTokenRepo.rows), now)|)
        + Swept(PasswordResetTokensTable, passwordResetRepo != null, faults,
                if passwordResetRepo == null then 0 else |SpentRows(old(passwordResetRepo.rows), now)|)
      ensures jobs == old(jobs) && started == old(started)
      // After a successful refresh sweep no revoked or expired row is left,
      // and every lookup at `now` or later answers as it did before.
      ensures rtRepo != null && RefreshTokensTable !in faults ==>
        (forall i :: 0 <= i < |rtRepo.rows| ==> !Stale(rtRepo.rows[i], now))
        && forall jti, later :: now <= later ==> rtRepo.FindValid(jti, later) == old(rtRepo.FindValid(jti, later))
    {
      SweepRefreshTokens(now, faults);
      SweepEmailVerificationTokens(now, faults);
      SweepPasswordResetTokens(now, faults);
    }

    /** The first block of `cleanupExpired`. */
    method SweepRefreshTokens(now: Time, faults: set<Table>)
      requires Valid()
      modifies this, rtRepo
      ensures Valid()
      ensures rtRepo != null ==>
        rtRepo.rows == (if RefreshTokensTable in faults then old(rtRepo.rows) else Sweep(old(rtRepo.rows), now))
      ensures log == old(log) + Swept(RefreshTokensTable, rtRepo != null, faults,
                                      if rtRepo == null then 0 else |StaleRows(old(rtRepo.rows), now)|)
      ensures jobs == old(jobs) && started == old(started)
      ensures rtRepo != null && RefreshTokensTable !in faults ==>
        (forall i :: 0 <= i < |rtRepo.rows| ==> !Stale(rtRepo.rows[i], now))
        && forall jti, later :: now <= later ==> rtRepo.FindValid(jti, later) == old(rtRepo.FindValid(jti, later))
    {
      if rtRepo != null {
        ghost var before := rtRepo.rows;
        var deleted, err := rtRepo.DeleteExpired(now, RefreshTokensTable in faults);
        if RefreshTokensTable !in faults {
          SweepCount(before, now);
          SweepExact(before, now);
          forall jti, later | now <= later
            ensures FindValidIn(rtRepo.rows, jti, later) == FindValidIn(before, jti, later)
          {
            SweepKeepsValid(before, now, later, jti);
          }
          assert forall i :: 0 <= i < |rtRepo.rows| ==> rtRepo.rows[i] in Sweep(before, now);
        }
        log := log + Report(RefreshTokensTable, true, err, deleted);
      }
    }

    /** The second block of `cleanupExpired`. */
    method SweepEmailVerificationTokens(now: Time, faults: set<Table>)
      requires Valid()
      modifies this, emailTokenRepo
      ensures Valid()
      ensures emailTokenRepo != null ==>
        emailTokenRepo.rows == (if EmailVerificationTokensTable in faults then old(emailTokenRepo.rows) else SweepTokens(old(emailTokenRepo.rows), now))
      ensures log == old(log) + Swept(EmailVerificationTokensTable, emailTokenRepo != null, faults,
                                      if emailTokenRepo == null then 0 else |SpentRows(old(emailTokenRepo.rows), now)|)
      ensures jobs == old(jobs) && started == old(started)
    {
      if emailTokenRepo != null {
        ghost var before := emailTokenRepo.rows;
        var deleted, err := emailTokenRepo.DeleteExpired(now, EmailVerificationTokensTable in faults);
        if EmailVerificationTokensTable !in faults {
          SweepTokensCount(before, now);
        }
        log := log + Report(EmailVerificationTokensTable, true, err, deleted);
      }
    }

    /** The third block of `cleanupExpired`. */
    method SweepPasswordResetTokens(now: Time, faults: set<Table>)
      requires Valid()
      modifies this, passwordResetRepo
      ensures Valid()
      ensures passwordResetRepo != null ==>
        passwordResetRepo.rows == (if PasswordResetTokensTable in faults then old(passwordResetRepo.rows) else SweepTokens(old(passwordResetRepo.rows), now))
      ensures log == old(log) + Swept(PasswordResetTokensTable, passwordResetRepo != null, faults,
                                      if passwordResetRepo == null then 0 else |SpentRows(old(passwordResetRepo.rows), now)|)
      ensures jobs == old(jobs) && started == old(started)
    {
      if passwordResetRepo != null {
        ghost var before := passwordResetRepo.rows;
        var deleted, err := passwordResetRepo.DeleteExpired(now, PasswordResetTokensTable in faults);
        if PasswordResetTokensTable !in faults {
          SweepTokensCount(before, now);
        }
        log := log + Report(PasswordResetTokensTable, true, err, deleted);
      }
    }
  }
}
