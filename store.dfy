/** The outcome of one SQL statement issued through GORM. A statement either
    takes effect in full or fails with an error and changes nothing. Whether
    the database is reachable is not something the code decides, so every
    repository call that can fail takes a `down` flag that makes it fail. */
module Store {
  datatype DbError =
    | Unavailable
      /** A unique index refused the row; `index` names the column. */
    | UniqueViolation(index: string)
      /** GORM's `ErrRecordNotFound`: a `First` that selected no row. */
    | NotFound
}
