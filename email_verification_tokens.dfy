/** The `email_verification_tokens` table: primary key `id`, unique `token`. */
module EmailVerificationTokens {
  import opened Wrappers
  import opened GoTime
  import opened Uuid
  import opened Store
  import opened OneShotTokens

  class EmailVerificationTokenRepository {
    var rows: seq<OneShotToken>

    ghost predicate Valid()
      reads this
    {
      IdsUnique(rows) && TokensUnique(rows)
    }

    constructor ()
      ensures Valid() && rows == []
    {
      rows := [];
    }

    /** `Create`: inserts the row `NewRow(...)`, unless its `id` or `token` is taken. */
    method Create(userId: Uuid, token: string, expiresAt: Time, id: Uuid, now: Time, down: bool)
      returns (row: OneShotToken, err: Option<DbError>)
      requires Valid()
      modifies this
      ensures Valid()
      ensures row == NewRow(userId, token, expiresAt, id, now)
      ensures err == (if down then Some(Unavailable)
                      else if HasId(old(rows), id) then Some(UniqueViolation("id"))
                      else if HasToken(old(rows), token) then Some(UniqueViolation("token"))
                      else None)
      ensures rows == if err.None? then old(rows) + [row] else old(rows)
    {
      row := NewRow(userId, token, expiresAt, id, now);
      if down {
        return row, Some(Unavailable);
      }
      if exists i :: 0 <= i < |rows| && rows[i].id == id {
        return row, Some(UniqueViolation("id"));
      }
      if exists i :: 0 <= i < |rows| && rows[i].token == token {
        return row, Some(UniqueViolation("token"));
      }
      rows := rows + [row];
      return row, None;
    }

    /** `FindByToken`: the usable row holding `token`, as of `now`. */
    function FindByToken(token: string, now: Time): (r: Option<OneShotToken>)
      reads this
      ensures r.Some? ==> r.value in rows && r.value.token == token && Usable(r.value, now)
      ensures r.None? <==> forall i :: 0 <= i < |rows| ==> !(rows[i].token == token && Usable(rows[i], now))
    {
      FindByTokenIn(rows, token, now)
    }

    /** `MarkUsed` */
    method MarkUsed(id: Uuid, down: bool) returns (err: Option<DbError>)
      requires Valid()
      modifies this
      ensures Valid()
      ensures err == (if down then Some(Unavailable) else None)
      ensures rows == if down then old(rows) else MarkUsedIn(old(rows), id)
    {
      if down {
        return Some(Unavailable);
      }
      MarkUsedKeepsKeys(rows, id);
      rows := MarkUsedIn(rows, id);
      return None;
    }

    /** `DeleteExpired`: removes the expired and used rows and reports how many. */
    method DeleteExpired(now: Time, down: bool) returns (count: nat, err: Option<DbError>)
      requires Valid()
      modifies this
      ensures Valid()
      ensures down ==> err == Some(Unavailable) && count == 0 && rows == old(rows)
      ensures !down ==> err == None && rows == SweepTokens(old(rows), now) && count == |old(rows)| - |rows|
    {
      if down {
        return 0, Some(Unavailable);
      }
      var before := |rows|;
      SweepKeepsKeys(rows, now);
      rows := SweepTokens(rows, now);
      return before - |rows|, None;
    }
  }
}
