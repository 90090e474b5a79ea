/** The link-service's `short_links` table: primary key `id`, a unique
    `short_code`, the owner (none for an anonymous link), the target URL, an
    `is_active` flag and an optional expiry. */
module ShortLinks {
  import opened Wrappers
  import opened GoTime
  import opened Uuid
  import opened Seqs
  import opened Store

  datatype ShortLink = ShortLink(id: Uuid, userId: Option<Uuid>, originalUrl: string, shortCode: string,
                                 isActive: bool, expireAt: Option<Time>, createdAt: Time)

  /** What every query of the repository asks of a link:
      `is_active = true AND (expire_at IS NULL OR expire_at > now)`. */
  predicate Available(l: ShortLink, now: Time) {
    l.isActive && (l.expireAt.None? || l.expireAt.value > now)
  }

  predicate IdsUnique(rows: seq<ShortLink>) {
    forall i, j :: 0 <= i < j < |rows| ==> rows[i].id != rows[j].id
  }

  /** The unique index on `short_code`. */
  predicate CodesUnique(rows: seq<ShortLink>) {
    forall i, j :: 0 <= i < j < |rows| ==> rows[i].shortCode != rows[j].shortCode
  }

  predicate HasId(rows: seq<ShortLink>, id: Uuid) {
    exists i :: 0 <= i < |rows| && rows[i].id == id
  }

  predicate HasCode(rows: seq<ShortLink>, code: string) {
    exists i :: 0 <= i < |rows| && rows[i].shortCode == code
  }

  /** The first available row selected by `sel` (`... First`). */
  function FirstAvailable(rows: seq<ShortLink>, sel: ShortLink -> bool, now: Time): (r: Option<ShortLink>)
    ensures r.Some? ==> r.value in rows && sel(r.value) && Available(r.value, now)
    ensures r.None? <==> forall i :: 0 <= i < |rows| ==> !(sel(rows[i]) && Available(rows[i], now))
  {
    if rows == [] then None
    else if sel(rows[0]) && Available(rows[0], now) then Some(rows[0])
    else
      var r := FirstAvailable(rows[1..], sel, now);
      assert forall i :: 1 <= i < |rows| ==> rows[i] == rows[1..][i - 1];
      r
  }

  /** `GetByShortCode`: `WHERE short_code = ? AND <available>` ... `First`. */
  function FindByCodeIn(rows: seq<ShortLink>, code: string, now: Time): Option<ShortLink> {
    FirstAvailable(rows, (l: ShortLink) => l.shortCode == code, now)
  }

  /** `GetByID`: `WHERE id = ? AND <available>` ... `First`. */
  function FindByIdIn(rows: seq<ShortLink>, id: Uuid, now: Time): Option<ShortLink> {
    FirstAvailable(rows, (l: ShortLink) => l.id == id, now)
  }

  /** `GetByUserID`: `WHERE user_id = ? AND <available>`, in table order. */
  function ByUserIn(rows: seq<ShortLink>, userId: Uuid, now: Time): seq<ShortLink> {
    Filter((l: ShortLink) => l.userId == Some(userId) && Available(l, now), rows)
  }

  /** Whether `DeactivateByID(id, userId)` selects this row:
      `id = ? AND user_id = ? AND is_active = true`. */
  predicate Selected(l: ShortLink, id: Uuid, userId: Uuid) {
    l.id == id && l.userId == Some(userId) && l.isActive
  }

  /** The rows after `DeactivateByID(id, userId)`: `is_active` cleared on the selected rows. */
  function DeactivateIn(rows: seq<ShortLink>, id: Uuid, userId: Uuid): (r: seq<ShortLink>)
    ensures |r| == |rows|
  {
    seq(|rows|, i requires 0 <= i < |rows| => if Selected(rows[i], id, userId) then rows[i].(isActive := false) else rows[i])
  }

  /** The row `Create` inserts: `BeforeCreate` assigns a fresh `id` and
      `autoCreateTime` stamps `created_at`. */
  function Stored(link: ShortLink, id: Uuid, now: Time): (r: ShortLink)
    ensures r.id == id && r.createdAt == now
    ensures r.userId == link.userId && r.originalUrl == link.originalUrl && r.shortCode == link.shortCode
    ensures r.isActive == link.isActive && r.expireAt == link.expireAt
  {
    link.(id := id, createdAt := now)
  }

  /** What `First` reports: the row it found, or `ErrRecordNotFound`. */
  function FoundOr(o: Option<ShortLink>): (r: Result<ShortLink, DbError>)
    ensures r.Ok? <==> o.Some?
    ensures r.Ok? ==> r.value == o.value
    ensures r.Err? ==> r.error == NotFound
  {
    if o.Some? then Ok(o.value) else Err(NotFound)
  }

  class ShortLinkRepository {
    var rows: seq<ShortLink>

    ghost predicate Valid()
      reads this
    {
      IdsUnique(rows) && CodesUnique(rows)
    }

    constructor ()
      ensures Valid() && rows == []
    {
      rows := [];
    }

    /** `Create`: inserts the link under a fresh `id`, unless the `id` or the
        `short_code` is taken. */
    method Create(link: ShortLink, id: Uuid, now: Time, down: bool) returns (stored: ShortLink, err: Option<DbError>)
      requires Valid()
      modifies this
      ensures Valid()
      ensures stored == Stored(link, id, now)
      ensures err == (if down then Some(Unavailable)
                      else if HasId(old(rows), id) then Some(UniqueViolation("id"))
                      else if HasCode(old(rows), link.shortCode) then Some(UniqueViolation("short_code"))
                      else None)
      ensures rows == if err.None? then old(rows) + [stored] else old(rows)
    {
      stored := Stored(link, id, now);
      if down {
        return stored, Some(Unavailable);
      }
      if exists i :: 0 <= i < |rows| && rows[i].id == id {
        return stored, Some(UniqueViolation("id"));
      }
      if exists i :: 0 <= i < |rows| && rows[i].shortCode == link.shortCode {
        return stored, Some(UniqueViolation("short_code"));
      }
      rows := rows + [stored];
      return stored, None;
    }

    /** `GetByShortCode`: the first available link with the code, `NotFound`
        when there is none, or the error of a failing query. */
    function GetByShortCode(code: string, now: Time, down: bool): (r: Result<ShortLink, DbError>)
      reads this
      ensures down ==> r == Err(Unavailable)
      ensures r.Ok? ==> r.value in rows && r.value.shortCode == code && Available(r.value, now)
      ensures !down ==> (r.Err? <==> r == Err(NotFound))
      ensures !down ==> (r.Err? <==> forall i :: 0 <= i < |rows| ==> !(rows[i].shortCode == code && Available(rows[i], now)))
    {
      if down then Err(Unavailable) else FoundOr(FindByCodeIn(rows, code, now))
    }

    /** `GetByUserID`: the user's available links in table order; a query that
        finds none is no error. */
    function GetByUserID(userId: Uuid, now: Time, down: bool): (r: Result<seq<ShortLink>, DbError>)
      reads this
      ensures r.Err? <==> down
      ensures r.Err? ==> r.error == Unavailable
      ensures r.Ok? ==> forall l :: l in r.value <==> l in rows && l.userId == Some(userId) && Available(l, now)
    {
      if down then Err(Unavailable) else Ok(ByUserIn(rows, userId, now))
    }

    /** `DeactivateByID`: no error when no row is selected. */
    method DeactivateByID(id: Uuid, userId: Uuid, down: bool) returns (err: Option<DbError>)
      requires Valid()
      modifies this
      ensures Valid()
      ensures err == (if down then Some(Unavailable) else None)
      ensures rows == if down then old(rows) else DeactivateIn(old(rows), id, userId)
    {
      if down {
        return Some(Unavailable);
      }
      DeactivateKeepsKeys(rows, id, userId);
      rows := DeactivateIn(rows, id, userId);
      return None;
    }

    /** `GetByID`: the available link with the id, `NotFound` when there is
        none, or the error of a failing query. */
    function GetByID(id: Uuid, now: Time, down: bool): (r: Result<ShortLink, DbError>)
      reads this
      ensures down ==> r == Err(Unavailable)
      ensures r.Ok? ==> r.value in rows && r.value.id == id && Available(r.value, now)
      ensures !down ==> (r.Err? <==> r == Err(NotFound))
      ensures !down ==> (r.Err? <==> forall i :: 0 <= i < |rows| ==> !(rows[i].id == id && Available(rows[i], now)))
    {
      if down then Err(Unavailable) else FoundOr(FindByIdIn(rows, id, now))
    }
  }

  // ---------------------------------------------------------------------
  // Properties of the table operations.

  /** Deactivating changes only `is_active`, so both unique indexes hold. */
  lemma DeactivateKeepsKeys(rows: seq<ShortLink>, id: Uuid, userId: Uuid)
    ensures IdsUnique(rows) ==> IdsUnique(DeactivateIn(rows, id, userId))
    ensures CodesUnique(rows) ==> CodesUnique(DeactivateIn(rows, id, userId))
  {
  }

  /** `DeactivateByID(id, userId)` clears exactly the owner's active link with
      that id: other users' links and other ids are left as they were, and a
      second call changes nothing. */
  lemma DeactivateFacts(rows: seq<ShortLink>, id: Uuid, userId: Uuid)
    ensures var r := DeactivateIn(rows, id, userId);
      && (forall i :: 0 <= i < |rows| && rows[i].id == id && rows[i].userId == Some(userId) ==> !r[i].isActive)
      && (forall i :: 0 <= i < |rows| && !(rows[i].id == id && rows[i].userId == Some(userId)) ==> r[i] == rows[i])
      && DeactivateIn(r, id, userId) == r
  {
  }

  /** After its owner deactivates it, a link is found neither by its code nor
      by its id, at any time. */
  lemma DeactivatedNotFound(rows: seq<ShortLink>, k: nat, userId: Uuid, now: Time)
    requires IdsUnique(rows) && k < |rows| && rows[k].userId == Some(userId)
    ensures FindByIdIn(DeactivateIn(rows, rows[k].id, userId), rows[k].id, now).None?
    ensures CodesUnique(rows) ==>
      FindByCodeIn(DeactivateIn(rows, rows[k].id, userId), rows[k].shortCode, now).None?
  {
    var r := DeactivateIn(rows, rows[k].id, userId);
    assert !r[k].isActive;
    forall i | 0 <= i < |r| && i != k
      ensures r[i].id != rows[k].id && (CodesUnique(rows) ==> r[i].shortCode != rows[k].shortCode)
    {
      assert r[i] == rows[i] || r[i] == rows[i].(isActive := false);
    }
  }

  /** Another user's links are untouched by a `DeactivateByID`, whatever the id. */
  lemma {:induction false} ByUserUnchanged(rows: seq<ShortLink>, id: Uuid, userId: Uuid, other: Uuid, now: Time)
    requires other != userId
    ensures ByUserIn(DeactivateIn(rows, id, userId), other, now) == ByUserIn(rows, other, now)
  {
    if rows != [] {
      var r := DeactivateIn(rows, id, userId);
      assert r[1..] == DeactivateIn(rows[1..], id, userId);
      ByUserUnchanged(rows[1..], id, userId, other, now);
      assert r[0].userId == Some(other) ==> r[0] == rows[0];
    }
  }

  /** With unique codes, a stored link is found by its code for as long as
      it is active and unexpired. */
  lemma FoundByCode(rows: seq<ShortLink>, k: nat, now: Time)
    requires CodesUnique(rows) && k < |rows| && Available(rows[k], now)
    ensures FindByCodeIn(rows, rows[k].shortCode, now) == Some(rows[k])
  {
    var r := FindByCodeIn(rows, rows[k].shortCode, now).value;
    var j :| 0 <= j < |rows| && rows[j] == r;
    assert j == k;
  }
}
