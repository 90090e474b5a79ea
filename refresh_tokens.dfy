/** The `refresh_tokens` table and its repository: one row per refresh token
    issued, keyed by the token's `jti` (a unique index), holding the owner,
    the expiry and whether it has been revoked. */
module RefreshTokens {
  import opened Wrappers
  import opened GoTime
  import opened Uuid
  import opened Seqs
  import opened Store

  datatype RefreshToken = RefreshToken(jti: string, userId: Uuid, expiresAt: Time, revoked: bool)

  /** What `FindValid` looks for: not revoked and expiring strictly after `now`. */
  predicate Live(rt: RefreshToken, now: Time) {
    !rt.revoked && rt.expiresAt > now
  }

  /** The unique index on `jti`. */
  predicate JtisUnique(rows: seq<RefreshToken>) {
    forall i, j :: 0 <= i < j < |rows| ==> rows[i].jti != rows[j].jti
  }

  predicate HasJti(rows: seq<RefreshToken>, jti: string) {
    exists i :: 0 <= i < |rows| && rows[i].jti == jti
  }

  /** `WHERE jti = ? AND revoked = false AND expires_at > now` ... `First`. */
  function FindValidIn(rows: seq<RefreshToken>, jti: string, now: Time): (r: Option<RefreshToken>)
    ensures r.Some? ==> r.value in rows && r.value.jti == jti && Live(r.value, now)
    ensures r.None? <==> forall i :: 0 <= i < |rows| ==> !(rows[i].jti == jti && Live(rows[i], now))
  {
    if rows == [] then None
    else if rows[0].jti == jti && Live(rows[0], now) then Some(rows[0])
    else
      var r := FindValidIn(rows[1..], jti, now);
      assert forall i :: 1 <= i < |rows| ==> rows[i] == rows[1..][i - 1];
      r
  }

  /** `UPDATE ... SET revoked = true WHERE <sel>`: every selected row is revoked. */
  function RevokeWhere(rows: seq<RefreshToken>, sel: RefreshToken -> bool): (r: seq<RefreshToken>)
    ensures |r| == |rows|
    ensures forall i :: 0 <= i < |rows| ==> r[i] == if sel(rows[i]) then rows[i].(revoked := true) else rows[i]
  {
    seq(|rows|, i requires 0 <= i < |rows| => if sel(rows[i]) then rows[i].(revoked := true) else rows[i])
  }

  /** The rows after `RevokeByJTI(jti)`. */
  function RevokeJti(rows: seq<RefreshToken>, jti: string): seq<RefreshToken> {
    RevokeWhere(rows, (rt: RefreshToken) => rt.jti == jti)
  }

  /** The rows after `RevokeAllForUser(userId)`. Only the rows not yet revoked
      are selected, which gives the same table as selecting every row of the user. */
  function RevokeUser(rows: seq<RefreshToken>, userId: Uuid): seq<RefreshToken> {
    RevokeWhere(rows, (rt: RefreshToken) => rt.userId == userId && !rt.revoked)
  }

  /** What `DeleteExpired(now)` removes: `expires_at <= now OR revoked = true`. */
  predicate Stale(rt: RefreshToken, now: Time) {
    rt.expiresAt <= now || rt.revoked
  }

  /** The rows `DeleteExpired(now)` keeps. */
  function Sweep(rows: seq<RefreshToken>, now: Time): seq<RefreshToken> {
    Filter(rt => !Stale(rt, now), rows)
  }

  /** The table of refresh tokens. */
  class RefreshTokenRepository {
    var rows: seq<RefreshToken>

    ghost predicate Valid()
      reads this
    {
      JtisUnique(rows)
    }

    constructor ()
      ensures Valid() && rows == []
    {
      rows := [];
    }

    /** `Create`: inserts the row, unless its `jti` is already taken. */
    method Create(rt: RefreshToken, down: bool) returns (err: Option<DbError>)
      requires Valid()
      modifies this
      ensures Valid()
      ensures down ==> err == Some(Unavailable) && rows == old(rows)
      ensures !down && HasJti(old(rows), rt.jti) ==> err == Some(UniqueViolation("jti")) && rows == old(rows)
      ensures !down && !HasJti(old(rows), rt.jti) ==> err == None && rows == old(rows) + [rt]
    {
      if down {
        return Some(Unavailable);
      }
      if exists i :: 0 <= i < |rows| && rows[i].jti == rt.jti {
        return Some(UniqueViolation("jti"));
      }
      rows := rows + [rt];
      return None;
    }

    /** `FindValid`: the live row with this `jti`, as of `now`. */
    function FindValid(jti: string, now: Time): (r: Option<RefreshToken>)
      reads this
      ensures r.Some? ==> r.value in rows && r.value.jti == jti && Live(r.value, now)
      ensures r.None? <==> forall i :: 0 <= i < |rows| ==> !(rows[i].jti == jti && Live(rows[i], now))
    {
      FindValidIn(rows, jti, now)
    }

    /** `RevokeByJTI` */
    method RevokeByJti(jti: string, down: bool) returns (err: Option<DbError>)
      requires Valid()
      modifies this
      ensures Valid()
      ensures err == (if down then Some(Unavailable) else None)
      ensures rows == if down then old(rows) else RevokeJti(old(rows), jti)
    {
      if down {
        return Some(Unavailable);
      }
      rows := RevokeJti(rows, jti);
      return None;
    }

    /** `RevokeAllForUser` */
    method RevokeAllForUser(userId: Uuid, down: bool) returns (err: Option<DbError>)
      requires Valid()
      modifies this
      ensures Valid()
      ensures err == (if down then Some(Unavailable) else None)
      ensures rows == if down then old(rows) else RevokeUser(old(rows), userId)
    {
      if down {
        return Some(Unavailable);
      }
      rows := RevokeUser(rows, userId);
      return None;
    }

    /** `DeleteExpired`: removes the stale rows and reports how many. */
    method DeleteExpired(now: Time, down: bool) returns (count: nat, err: Option<DbError>)
      requires Valid()
      modifies this
      ensures Valid()
      ensures down ==> err == Some(Unavailable) && count == 0 && rows == old(rows)
      ensures !down ==> err == None && rows == Sweep(old(rows), now) && count == |old(rows)| - |rows|
    {
      if down {
        return 0, Some(Unavailable);
      }
      var before := |rows|;
      SweepUnique(rows, now);
      rows := Sweep(rows, now);
      return before - |rows|, None;
    }
  }

  // ---------------------------------------------------------------------
  // Properties of the table operations.

  lemma RevokeWhereUnique(rows: seq<RefreshToken>, sel: RefreshToken -> bool)
    requires JtisUnique(rows)
    ensures JtisUnique(RevokeWhere(rows, sel))
  {
  }

  lemma {:induction false} SweepUnique(rows: seq<RefreshToken>, now: Time)
    requires JtisUnique(rows)
    ensures JtisUnique(Sweep(rows, now))
  {
    if rows != [] {
      var tail := rows[1..];
      assert JtisUnique(tail) by {
        assert forall i :: 0 <= i < |tail| ==> tail[i] == rows[i + 1];
      }
      SweepUnique(tail, now);
      var head := if !Stale(rows[0], now) then [rows[0]] else [];
      var rest := Sweep(tail, now);
      assert Sweep(rows, now) == head + rest;
      forall k | 0 <= k < |rest|
        ensures rest[k].jti != rows[0].jti
      {
        assert rest[k] in tail;
      }
    }
  }

  /** After `RevokeByJTI(jti)` the token is never valid again. */
  lemma RevokedJtiNotFound(rows: seq<RefreshToken>, jti: string, now: Time)
    ensures FindValidIn(RevokeJti(rows, jti), jti, now).None?
  {
    var r := RevokeJti(rows, jti);
    assert forall i :: 0 <= i < |r| ==> !(r[i].jti == jti && Live(r[i], now));
  }

  /** Revoking one `jti` leaves the lookup of every other `jti` as it was. */
  lemma {:induction false} RevokeJtiOthers(rows: seq<RefreshToken>, jti: string, other: string, now: Time)
    requires other != jti
    ensures FindValidIn(RevokeJti(rows, jti), other, now) == FindValidIn(rows, other, now)
  {
    if rows != [] {
      RevokeJtiOthers(rows[1..], jti, other, now);
      assert RevokeJti(rows, jti)[1..] == RevokeJti(rows[1..], jti);
    }
  }

  /** Inserting a row with another `jti` leaves the lookup of `jti` as it was. */
  lemma {:induction false} FindValidAppend(rows: seq<RefreshToken>, rt: RefreshToken, jti: string, now: Time)
    requires rt.jti != jti
    ensures FindValidIn(rows + [rt], jti, now) == FindValidIn(rows, jti, now)
  {
    if rows == [] {
      assert ([] + [rt])[1..] == [];
    } else {
      assert (rows + [rt])[1..] == rows[1..] + [rt];
      FindValidAppend(rows[1..], rt, jti, now);
    }
  }

  /** After `RevokeAllForUser(u)` no token of `u` is valid, every other
      user's rows are untouched, and revoking again changes nothing. */
  lemma RevokeUserFacts(rows: seq<RefreshToken>, userId: Uuid, now: Time)
    ensures var r := RevokeUser(rows, userId);
      && (forall i :: 0 <= i < |r| && r[i].userId == userId ==> r[i].revoked)
      && (forall i :: 0 <= i < |r| && rows[i].userId != userId ==> r[i] == rows[i])
      && RevokeUser(r, userId) == r
  {
  }

  /** After `RevokeAllForUser(u)` every lookup answers as if the tokens of
      `u` had been removed from the table. */
  lemma {:induction false} RevokeUserFind(rows: seq<RefreshToken>, userId: Uuid, jti: string, now: Time)
    ensures FindValidIn(RevokeUser(rows, userId), jti, now)
         == FindValidIn(Filter((rt: RefreshToken) => rt.userId != userId, rows), jti, now)
  {
    if rows != [] {
      RevokeUserFind(rows[1..], userId, jti, now);
      assert RevokeUser(rows, userId)[1..] == RevokeUser(rows[1..], userId);
      var head := if rows[0].userId != userId then [rows[0]] else [];
      var rest := Filter((rt: RefreshToken) => rt.userId != userId, rows[1..]);
      assert Filter((rt: RefreshToken) => rt.userId != userId, rows) == head + rest;
      if head != [] {
        assert (head + rest)[0] == rows[0];
        assert (head + rest)[1..] == rest;
      } else {
        assert head + rest == rest;
      }
    }
  }

  /** `DeleteExpired(now)` never removes a token that is valid at `now` or
      later: every lookup from `now` on gives the same answer before and after. */
  lemma {:induction false} SweepKeepsValid(rows: seq<RefreshToken>, now: Time, later: Time, jti: string)
    requires now <= later
    ensures FindValidIn(Sweep(rows, now), jti, later) == FindValidIn(rows, jti, later)
  {
    if rows != [] {
      SweepKeepsValid(rows[1..], now, later, jti);
      var head := if !Stale(rows[0], now) then [rows[0]] else [];
      var rest := Sweep(rows[1..], now);
      assert Sweep(rows, now) == head + rest;
      if head != [] {
        assert (head + rest)[0] == rows[0];
        assert (head + rest)[1..] == rest;
      } else {
        assert head + rest == rest;
      }
    }
  }

  /** What is left is live at `now`, and what was removed was stale. */
  lemma SweepExact(rows: seq<RefreshToken>, now: Time)
    ensures forall rt :: rt in Sweep(rows, now) <==> rt in rows && !Stale(rt, now)
  {
  }

  /** The rows `DeleteExpired(now)` removes. */
  function StaleRows(rows: seq<RefreshToken>, now: Time): seq<RefreshToken> {
    Filter(rt => Stale(rt, now), rows)
  }

  /** The count `DeleteExpired` reports is the number of stale rows. */
  lemma {:induction false} SweepCount(rows: seq<RefreshToken>, now: Time)
    ensures |rows| - |Sweep(rows, now)| == |StaleRows(rows, now)|
  {
    if rows != [] {
      SweepCount(rows[1..], now);
    }
  }

  /** Sweeping twice at the same instant removes nothing more. */
  lemma SweepIdempotent(rows: seq<RefreshToken>, now: Time)
    ensures Sweep(Sweep(rows, now), now) == Sweep(rows, now)
  {
    FilterAll(rt => !Stale(rt, now), Sweep(rows, now));
  }
}
