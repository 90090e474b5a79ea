/** What the user services return besides their results, and the calls
    through which the outside world can make them fail. */
module AuthErrors {
  import opened Store
  import opened Bcrypt
  import opened Mail

  /** The sentinel errors of the service and the errors it passes through
      unchanged. `Panicked` stands for the panic of `uuid.MustParse`, and
      `RecordNotFound` for GORM's `ErrRecordNotFound`. */
  datatype ServiceError =
    | UserExists
    | UserNotFound
    | InvalidPassword
    | InvalidToken
    | EmailAlreadyVerified
    | RecordNotFound
    | Db(db: DbError)
    | Hash(hash: HashError)
    | Send(mail: MailError)
    | Panicked

  /** A writing store call or a mail send of the services; a method is told
      which of these fail on this run. */
  datatype Call =
    | InsertUser
    | VerifyUser
    | WritePassword
    | InsertSession
    | RevokeSession
    | RevokeSessions
    | InsertVerificationToken
    | SpendVerificationToken
    | InsertResetToken
    | SpendResetToken
    | SendMail
}
