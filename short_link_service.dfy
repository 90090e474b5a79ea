/** The link-service's `ShortLinkService`: creating a short link with its
    expiry rule, and the lookups and the deactivation it passes through to the
    repository. The generated short code (`shortid.Generate`) enters as a
    parameter that is None when generation fails; `now` is `time.Now()`. */
module ShortLinkService {
  import opened Wrappers
  import opened GoTime
  import opened Uuid
  import opened Store
  import opened ShortLinks

  /** `ErrGenerateShortCode` and `ErrCreateShortLink`. */
  datatype LinkError = ErrGenerateShortCode | ErrCreateShortLink

  /** The lifetime of an anonymous link with no explicit one: `7 * 24 * time.Hour`. */
  const AnonymousTtl: Duration := 7 * 24 * Hour

  /** The expiry `CreateShortLink` gives a new link: `expireAfter` from now
      when given; otherwise a week from now for an anonymous link, and none
      for a link with an owner. */
  function ExpiryFor(userId: Option<Uuid>, expireAfter: Option<Duration>, now: Time): (r: Option<Time>)
    ensures r.None? <==> expireAfter.None? && userId.Some?
    ensures r.Some? ==> r.value - now == (if expireAfter.Some? then expireAfter.value else AnonymousTtl)
  {
    if expireAfter.Some? then Some(now + expireAfter.value)
    else if userId.None? then Some(now + AnonymousTtl)
    else None
  }

  /** The link `CreateShortLink` hands to the repository, before `BeforeCreate`. */
  function NewLink(originalUrl: string, userId: Option<Uuid>, code: string, expireAt: Option<Time>): (l: ShortLink)
    ensures l.originalUrl == originalUrl && l.userId == userId && l.shortCode == code
    ensures l.isActive && l.expireAt == expireAt
  {
    ShortLink(Nil, userId, originalUrl, code, true, expireAt, 0)
  }

  class ShortLinkService {
    const repo: ShortLinkRepository

    constructor (repo: ShortLinkRepository)
      ensures this.repo == repo
    {
      this.repo := repo;
    }

    /** `CreateShortLink`. `code` is what `generateShortCode` produced (None
        when it failed), `id` the fresh `uuid.New()` of `BeforeCreate`, `down`
        whether the insert fails. */
    method CreateShortLink(originalUrl: string, userId: Option<Uuid>, expireAfter: Option<Duration>,
                           now: Time, code: Option<string>, id: Uuid, down: bool)
      returns (r: Result<ShortLink, LinkError>)
      requires repo.Valid()
      modifies repo
      ensures repo.Valid()
      ensures code.None? ==> r == Err(ErrGenerateShortCode) && repo.rows == old(repo.rows)
      ensures code.Some? ==>
        var stored := Stored(NewLink(originalUrl, userId, code.value, ExpiryFor(userId, expireAfter, now)), id, now);
        var inserted := !down && !HasId(old(repo.rows), id) && !HasCode(old(repo.rows), code.value);
        && (inserted ==> r == Ok(stored) && repo.rows == old(repo.rows) + [stored])
        && (!inserted ==> r == Err(ErrCreateShortLink) && repo.rows == old(repo.rows))
      // A created link is handed out by its code from now until it expires.
      ensures r.Ok? ==> forall later :: now <= later && (r.value.expireAt.None? || later < r.value.expireAt.value) ==>
        repo.GetByShortCode(r.value.shortCode, later, false) == Ok(r.value)
    {
      var expireAt := ExpiryFor(userId, expireAfter, now);
      if code.None? {
        return Err(ErrGenerateShortCode);
      }
      var link := NewLink(originalUrl, userId, code.value, expireAt);
      var stored, err := repo.Create(link, id, now, down);
      if err.Some? {
        return Err(ErrCreateShortLink);
      }
      forall later | now <= later && (stored.expireAt.None? || later < stored.expireAt.value)
        ensures repo.GetByShortCode(stored.shortCode, later, false) == Ok(stored)
      {
        FoundByCode(repo.rows, |repo.rows| - 1, later);
      }
      return Ok(stored);
    }

    /** `GetShortLinkByCode`: the repository's answer, unchanged: the
        active, unexpired link with the code, `NotFound` when there is none,
        or the error of a failing query. */
    function GetShortLinkByCode(code: string, now: Time, down: bool): (r: Result<ShortLink, DbError>)
      reads repo
      ensures down ==> r == Err(Unavailable)
      ensures r.Ok? ==> r.value in repo.rows && r.value.shortCode == code && Available(r.value, now)
      ensures !down ==> (r.Err? <==> r == Err(NotFound))
      ensures !down ==> (r.Err? <==> forall i :: 0 <= i < |repo.rows| ==> !(repo.rows[i].shortCode == code && Available(repo.rows[i], now)))
    {
      repo.GetByShortCode(code, now, down)
    }

    /** `GetLinksUser`: the repository's answer, unchanged: the user's
        active, unexpired links, or the error of a failing query. */
    function GetLinksUser(userId: Uuid, now: Time, down: bool): (r: Result<seq<ShortLink>, DbError>)
      reads repo
      ensures r.Err? <==> down
      ensures r.Err? ==> r.error == Unavailable
      ensures r.Ok? ==> forall l :: l in r.value <==> l in repo.rows && l.userId == Some(userId) && Available(l, now)
    {
      repo.GetByUserID(userId, now, down)
    }

    /** `GetByID`: the repository's answer, unchanged: the active, unexpired
        link with the id, `NotFound` when there is none, or the error of a
        failing query. */
    function GetByID(id: Uuid, now: Time, down: bool): (r: Result<ShortLink, DbError>)
      reads repo
      ensures down ==> r == Err(Unavailable)
      ensures r.Ok? ==> r.value in repo.rows && r.value.id == id && Available(r.value, now)
      ensures !down ==> (r.Err? <==> r == Err(NotFound))
      ensures !down ==> (r.Err? <==> forall i :: 0 <= i < |repo.rows| ==> !(repo.rows[i].id == id && Available(repo.rows[i], now)))
    {
      repo.GetByID(id, now, down)
    }

    /** `DeactivateShortLink`: the repository's error, unchanged. */
    method DeactivateShortLink(id: Uuid, userId: Uuid, down: bool) returns (err: Option<DbError>)
      requires repo.Valid()
      modifies repo
      ensures repo.Valid()
      ensures err == (if down then Some(Unavailable) else None)
      ensures repo.rows == if down then old(repo.rows) else DeactivateIn(old(repo.rows), id, userId)
    {
      err := repo.DeactivateByID(id, userId, down);
    }
  }

  /** A link created with a lifetime that is not positive is never handed out. */
  lemma NonPositiveLifetimeUnavailable(userId: Option<Uuid>, d: Duration, now: Time, later: Time, l: ShortLink)
    requires d <= 0 && now <= later && l.expireAt == ExpiryFor(userId, Some(d), now)
    ensures !Available(l, later)
  {
  }
}
