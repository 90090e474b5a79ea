/** The rows shared by the `email_verification_tokens` and
    `password_reset_tokens` tables: a secret sent to a user by e-mail, valid
    until it expires or is used once. */
module OneShotTokens {
  import opened Wrappers
  import opened GoTime
  import opened Uuid
  import opened Seqs

  datatype OneShotToken = OneShotToken(id: Uuid, userId: Uuid, token: string, expiresAt: Time, used: bool, createdAt: Time)

  /** What `FindByToken` looks for: not used and expiring strictly after `now`. */
  predicate Usable(t: OneShotToken, now: Time) {
    !t.used && t.expiresAt > now
  }

  /** The primary key `id`. */
  predicate IdsUnique(rows: seq<OneShotToken>) {
    forall i, j :: 0 <= i < j < |rows| ==> rows[i].id != rows[j].id
  }

  /** A unique index on `token`. */
  predicate TokensUnique(rows: seq<OneShotToken>) {
    forall i, j :: 0 <= i < j < |rows| ==> rows[i].token != rows[j].token
  }

  predicate HasId(rows: seq<OneShotToken>, id: Uuid) {
    exists i :: 0 <= i < |rows| && rows[i].id == id
  }

  predicate HasToken(rows: seq<OneShotToken>, token: string) {
    exists i :: 0 <= i < |rows| && rows[i].token == token
  }

  /** `WHERE token = ? AND used = false AND expires_at > now` ... `First`. */
  function FindByTokenIn(rows: seq<OneShotToken>, token: string, now: Time): (r: Option<OneShotToken>)
    ensures r.Some? ==> r.value in rows && r.value.token == token && Usable(r.value, now)
    ensures r.None? <==> forall i :: 0 <= i < |rows| ==> !(rows[i].token == token && Usable(rows[i], now))
  {
    if rows == [] then None
    else if rows[0].token == token && Usable(rows[0], now) then Some(rows[0])
    else
      var r := FindByTokenIn(rows[1..], token, now);
      assert forall i :: 1 <= i < |rows| ==> rows[i] == rows[1..][i - 1];
      r
  }

  /** The rows after `MarkUsed(id)`: `UPDATE ... SET used = true WHERE id = ?`. */
  function MarkUsedIn(rows: seq<OneShotToken>, id: Uuid): (r: seq<OneShotToken>)
    ensures |r| == |rows|
    ensures forall i :: 0 <= i < |rows| ==> r[i] == if rows[i].id == id then rows[i].(used := true) else rows[i]
  {
    seq(|rows|, i requires 0 <= i < |rows| => if rows[i].id == id then rows[i].(used := true) else rows[i])
  }

  /** What `DeleteExpired(now)` removes: `expires_at <= now OR used = true`. */
  predicate Spent(t: OneShotToken, now: Time) {
    t.expiresAt <= now || t.used
  }

  /** The rows `DeleteExpired(now)` keeps. */
  function SweepTokens(rows: seq<OneShotToken>, now: Time): seq<OneShotToken> {
    Filter(t => !Spent(t, now), rows)
  }

  /** The rows `DeleteExpired(now)` removes. */
  function SpentRows(rows: seq<OneShotToken>, now: Time): seq<OneShotToken> {
    Filter(t => Spent(t, now), rows)
  }

  /** `WHERE user_id = ? ORDER BY created_at DESC` ... `First`: a row of the
      user created no earlier than any other; among rows created at the same
      instant, the first in table order. */
  function LatestByUser(rows: seq<OneShotToken>, userId: Uuid): (r: Option<OneShotToken>)
    ensures r.Some? ==> r.value in rows && r.value.userId == userId
    ensures r.Some? ==> forall i :: 0 <= i < |rows| && rows[i].userId == userId ==> rows[i].createdAt <= r.value.createdAt
    ensures r.None? <==> forall i :: 0 <= i < |rows| ==> rows[i].userId != userId
  {
    if rows == [] then None
    else
      var rest := LatestByUser(rows[1..], userId);
      assert forall i :: 1 <= i < |rows| ==> rows[i] == rows[1..][i - 1];
      if rows[0].userId != userId then rest
      else if rest.Some? && rest.value.createdAt > rows[0].createdAt then rest
      else Some(rows[0])
  }

  /** The row a `Create` inserts: `BeforeCreate` sets a fresh `id`, and
      `autoCreateTime` stamps `created_at`. */
  function NewRow(userId: Uuid, token: string, expiresAt: Time, id: Uuid, now: Time): (t: OneShotToken)
    ensures !t.used && t.createdAt == now && t.id == id
  {
    OneShotToken(id, userId, token, expiresAt, false, now)
  }

  // ---------------------------------------------------------------------
  // Properties of the table operations.

  lemma MarkUsedKeepsKeys(rows: seq<OneShotToken>, id: Uuid)
    ensures IdsUnique(rows) ==> IdsUnique(MarkUsedIn(rows, id))
    ensures TokensUnique(rows) ==> TokensUnique(MarkUsedIn(rows, id))
  {
  }

  /** Deleting rows keeps both unique indexes. */
  lemma SweepKeepsKeys(rows: seq<OneShotToken>, now: Time)
    ensures IdsUnique(rows) ==> IdsUnique(SweepTokens(rows, now))
    ensures TokensUnique(rows) ==> TokensUnique(SweepTokens(rows, now))
  {
    if IdsUnique(rows) {
      SweepKeepsIds(rows, now);
    }
    if TokensUnique(rows) {
      SweepKeepsTokens(rows, now);
    }
  }

  lemma {:induction false} SweepKeepsIds(rows: seq<OneShotToken>, now: Time)
    requires IdsUnique(rows)
    ensures IdsUnique(SweepTokens(rows, now))
  {
    if rows != [] {
      var tail := rows[1..];
      assert IdsUnique(tail) by {
        assert forall i :: 0 <= i < |tail| ==> tail[i] == rows[i + 1];
      }
      SweepKeepsIds(tail, now);
      var head := if !Spent(rows[0], now) then [rows[0]] else [];
      var rest := SweepTokens(tail, now);
      assert SweepTokens(rows, now) == head + rest;
      forall k | 0 <= k < |rest|
        ensures rest[k].id != rows[0].id
      {
        assert rest[k] in tail;
      }
    }
  }

  lemma {:induction false} SweepKeepsTokens(rows: seq<OneShotToken>, now: Time)
    requires TokensUnique(rows)
    ensures TokensUnique(SweepTokens(rows, now))
  {
    if rows != [] {
      var tail := rows[1..];
      assert TokensUnique(tail) by {
        assert forall i :: 0 <= i < |tail| ==> tail[i] == rows[i + 1];
      }
      SweepKeepsTokens(tail, now);
      var head := if !Spent(rows[0], now) then [rows[0]] else [];
      var rest := SweepTokens(tail, now);
      assert SweepTokens(rows, now) == head + rest;
      forall k | 0 <= k < |rest|
        ensures rest[k].token != rows[0].token
      {
        assert rest[k] in tail;
      }
    }
  }

  /** Once a row is marked used, no lookup returns it again. */
  lemma MarkedNotFound(rows: seq<OneShotToken>, id: Uuid, token: string, now: Time)
    ensures var r := FindByTokenIn(MarkUsedIn(rows, id), token, now);
      r.Some? ==> r.value.id != id
  {
  }

  /** Where tokens are unique, a token found and then marked used is never
      found again: a verification or reset link works once. */
  lemma SingleUse(rows: seq<OneShotToken>, token: string, now: Time, later: Time)
    requires TokensUnique(rows)
    requires FindByTokenIn(rows, token, now).Some?
    ensures FindByTokenIn(MarkUsedIn(rows, FindByTokenIn(rows, token, now).value.id), token, later).None?
  {
    var t := FindByTokenIn(rows, token, now).value;
    var k :| 0 <= k < |rows| && rows[k] == t;
    var r := MarkUsedIn(rows, t.id);
    forall i | 0 <= i < |r|
      ensures !(r[i].token == token && Usable(r[i], later))
    {
      if i != k {
        assert rows[i].token != rows[k].token;
      }
    }
  }

  /** Marking one row used leaves every lookup that did not return it unchanged. */
  lemma {:induction false} MarkUsedOthers(rows: seq<OneShotToken>, id: Uuid, token: string, now: Time)
    requires FindByTokenIn(rows, token, now).None? || FindByTokenIn(rows, token, now).value.id != id
    requires IdsUnique(rows)
    ensures FindByTokenIn(MarkUsedIn(rows, id), token, now) == FindByTokenIn(rows, token, now)
  {
    if rows != [] {
      var tail := rows[1..];
      assert forall i :: 0 <= i < |tail| ==> tail[i] == rows[i + 1];
      assert MarkUsedIn(rows, id)[1..] == MarkUsedIn(tail, id);
      if !(rows[0].token == token && Usable(rows[0], now)) {
        MarkUsedOthers(tail, id, token, now);
      }
    }
  }

  /** `DeleteExpired(now)` never removes a token usable at `now` or later. */
  lemma {:induction false} SweepKeepsUsable(rows: seq<OneShotToken>, now: Time, later: Time, token: string)
    requires now <= later
    ensures FindByTokenIn(SweepTokens(rows, now), token, later) == FindByTokenIn(rows, token, later)
  {
    if rows != [] {
      SweepKeepsUsable(rows[1..], now, later, token);
      var head := if !Spent(rows[0], now) then [rows[0]] else [];
      var rest := SweepTokens(rows[1..], now);
      assert SweepTokens(rows, now) == head + rest;
      if head != [] {
        assert (head + rest)[0] == rows[0];
        assert (head + rest)[1..] == rest;
      } else {
        assert head + rest == rest;
      }
    }
  }

  /** What is left is neither expired nor used; what was removed was. */
  lemma SweepTokensExact(rows: seq<OneShotToken>, now: Time)
    ensures forall t :: t in SweepTokens(rows, now) <==> t in rows && !Spent(t, now)
  {
  }

  /** The count `DeleteExpired` reports is the number of spent rows. */
  lemma {:induction false} SweepTokensCount(rows: seq<OneShotToken>, now: Time)
    ensures |rows| - |SweepTokens(rows, now)| == |SpentRows(rows, now)|
  {
    if rows != [] {
      SweepTokensCount(rows[1..], now);
    }
  }

  /** A newly inserted row, created no earlier than the user's other rows,
      becomes the user's latest. */
  lemma {:induction false} LatestAfterInsert(rows: seq<OneShotToken>, t: OneShotToken)
    requires forall i :: 0 <= i < |rows| && rows[i].userId == t.userId ==> rows[i].createdAt < t.createdAt
    ensures LatestByUser(rows + [t], t.userId) == Some(t)
  {
    if rows != [] {
      var tail := rows[1..];
      assert forall i :: 0 <= i < |tail| ==> tail[i] == rows[i + 1];
      assert (rows + [t])[1..] == tail + [t];
      LatestAfterInsert(tail, t);
    } else {
      assert (rows + [t])[1..] == [];
    }
  }
}
