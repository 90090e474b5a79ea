/** The link-service's `ClickService`: recording a click with the country and
    region an IP lookup returns, the statistics of a link gathered by six
    queries in turn, and the list of a link's clicks newest first. The IP
    lookup over HTTP is a parameter (None when the request or the decoding
    fails); `now` is `time.Now()`. */
module ClickService {
  import opened Wrappers
  import opened GoTime
  import opened Uuid
  import opened Seqs
  import opened Store
  import opened Clicks

  /** The part of the IP lookup's JSON answer that is kept. */
  datatype GeoAnswer = GeoAnswer(country: string, regionName: string)

  /** `Stats`. `dailyStats` is keyed by day number rather than `DATE()` text. */
  datatype Stats = Stats(total: nat, uniqueIpCount: nat, uniqueIps: seq<string>,
                         countriesCount: nat, countries: seq<string>,
                         countriesStats: map<string, nat>, dailyStats: map<int, nat>)

  /** The six queries of `GetStats`, in the order it issues them. */
  datatype Query = CountQuery | UniqueIpCountQuery | UniqueIpsQuery
                 | UniqueCountriesQuery | CountryStatsQuery | DailyStatsQuery

  const QueryOrder: seq<Query> := [CountQuery, UniqueIpCountQuery, UniqueIpsQuery,
                                   UniqueCountriesQuery, CountryStatsQuery, DailyStatsQuery]

  /** How many queries of `GetStats` succeed before the first failing one
      (six when none fails). */
  function Answered(faults: set<Query>): (k: nat)
    ensures k <= |QueryOrder|
    ensures forall i :: 0 <= i < k ==> QueryOrder[i] !in faults
    ensures k < |QueryOrder| ==> QueryOrder[k] in faults
  {
    AnsweredFrom(faults, 0)
  }

  function AnsweredFrom(faults: set<Query>, i: nat): (k: nat)
    requires i <= |QueryOrder|
    ensures i <= k <= |QueryOrder|
    ensures forall j :: i <= j < k ==> QueryOrder[j] !in faults
    ensures k < |QueryOrder| ==> QueryOrder[k] in faults
    decreases |QueryOrder| - i
  {
    if i == |QueryOrder| || QueryOrder[i] in faults then i else AnsweredFrom(faults, i + 1)
  }

  /** The statistics of a link when every query succeeds. */
  function FullStats(rows: seq<Click>, linkId: Uuid): Stats {
    var cs := OfLink(rows, linkId);
    var countries := Distinct(Countries(cs));
    Stats(|cs|, |Elems(Ips(cs))|, Distinct(Ips(cs)), |countries|, countries,
          CountryStatsOf(rows, linkId), DailyStatsOf(rows, linkId))
  }

  /** What `GetStats` has filled in when only its first `k` queries have
      succeeded: the later fields keep their zero values. */
  function Partial(s: Stats, k: nat): Stats {
    Stats(if k > 0 then s.total else 0,
          if k > 1 then s.uniqueIpCount else 0,
          if k > 2 then s.uniqueIps else [],
          if k > 3 then s.countriesCount else 0,
          if k > 3 then s.countries else [],
          if k > 4 then s.countriesStats else map[],
          if k > 5 then s.dailyStats else map[])
  }

  /** The click `CreateClick` stores: the lookup's country and region when it
      answered, empty strings otherwise. */
  function NewClick(linkId: Uuid, ip: string, userAgent: string, now: Time, geo: Option<GeoAnswer>, id: Uuid): (c: Click)
    ensures c.id == id && c.shortLinkId == linkId && c.ip == ip && c.userAgent == userAgent && c.clickedAt == now
    ensures geo.None? ==> c.country == "" && c.region == ""
    ensures geo.Some? ==> c.country == geo.value.country && c.region == geo.value.regionName
  {
    Click(id, linkId, ip, userAgent,
          if geo.Some? then geo.value.country else "",
          if geo.Some? then geo.value.regionName else "",
          now)
  }

  /** `sort.Slice` with `clicks[i].ClickedAt.After(clicks[j].ClickedAt)`. */
  predicate NewestFirst(s: seq<Click>) {
    forall i, j :: 0 <= i < j < |s| ==> s[i].clickedAt >= s[j].clickedAt
  }

  /** Sorts `a` newest first. Only the outcome of `sort.Slice` is modelled
      (an ordering of the same clicks), not its algorithm; like `sort.Slice`,
      it promises nothing about the order of clicks with equal times. */
  method SortNewestFirst(a: array<Click>)
    modifies a
    ensures NewestFirst(a[..])
    ensures multiset(a[..]) == multiset(old(a[..]))
  {
    var i := 0;
    while i < a.Length
      invariant 0 <= i <= a.Length
      invariant NewestFirst(a[..i])
      invariant multiset(a[..]) == multiset(old(a[..]))
    {
      SinkInto(a, i);
      i := i + 1;
    }
    assert a[..i] == a[..];
  }

  /** Moves `a[i]` towards the front past every older click, so that
      `a[..i + 1]` is ordered. */
  method SinkInto(a: array<Click>, i: nat)
    requires i < a.Length && NewestFirst(a[..i])
    modifies a
    ensures NewestFirst(a[..i + 1])
    ensures multiset(a[..]) == multiset(old(a[..]))
  {
    var j := i;
    while j > 0 && a[j - 1].clickedAt < a[j].clickedAt
      invariant 0 <= j <= i
      invariant multiset(a[..]) == multiset(old(a[..]))
      invariant forall p, q :: 0 <= p < q <= i && q != j ==> a[p].clickedAt >= a[q].clickedAt
    {
      Swap(a, j - 1, j);
      j := j - 1;
    }
  }

  method Swap(a: array<Click>, p: nat, q: nat)
    requires p < q < a.Length
    modifies a
    ensures a[..] == old(a[..])[p := old(a[q])][q := old(a[p])]
    ensures multiset(a[..]) == multiset(old(a[..]))
  {
    ghost var s := a[..];
    a[p], a[q] := a[q], a[p];
    assert a[..] == s[p := s[q]][q := s[p]];
  }

  class ClickService {
    const repo: ClickRepository

    constructor (repo: ClickRepository)
      ensures this.repo == repo
    {
      this.repo := repo;
    }

    /** `CreateClick`: stores the click with its lookup answer; the
        repository's error is returned unchanged. */
    method CreateClick(linkId: Uuid, ip: string, userAgent: string, now: Time,
                       geo: Option<GeoAnswer>, id: Uuid, down: bool) returns (err: Option<DbError>)
      requires repo.Valid()
      modifies repo
      ensures repo.Valid()
      ensures err == (if down then Some(Unavailable)
                      else if HasId(old(repo.rows), id) then Some(UniqueViolation("id"))
                      else None)
      ensures repo.rows == if err.None? then old(repo.rows) + [NewClick(linkId, ip, userAgent, now, geo, id)]
                           else old(repo.rows)
      // The link has one click more, the stored one, and no other link gains one.
      ensures err.None? ==> forall l ::
        OfLink(repo.rows, l) == OfLink(old(repo.rows), l) + (if l == linkId then [NewClick(linkId, ip, userAgent, now, geo, id)] else [])
    {
      var click := NewClick(linkId, ip, userAgent, now, geo, id);
      err := repo.Create(click, id, down);
      if err.None? {
        assert click.(id := id) == click;
        forall l
          ensures OfLink(repo.rows, l) == OfLink(old(repo.rows), l) + (if l == linkId then [click] else [])
        {
          CreateFacts(old(repo.rows), click, l);
        }
      }
    }

    /** `GetStats`: the six queries in turn; the first failure returns its
        error together with what had been filled in so far. */
    method GetStats(linkId: Uuid, faults: set<Query>) returns (stats: Stats, err: Option<DbError>)
      ensures err == if Answered(faults) < |QueryOrder| then Some(Unavailable) else None
      ensures stats == Partial(FullStats(repo.rows, linkId), Answered(faults))
    {
      stats := Stats(0, 0, [], 0, [], map[], map[]);

      var total := repo.GetCount(linkId, CountQuery in faults);
      if total.Err? {
        return stats, Some(total.error);
      }
      OfLinkCount(repo.rows, linkId);
      stats := stats.(total := total.value);

      var uniqueIpCount := repo.GetUniqueIPCount(linkId, UniqueIpCountQuery in faults);
      if uniqueIpCount.Err? {
        return stats, Some(uniqueIpCount.error);
      }
      stats := stats.(uniqueIpCount := uniqueIpCount.value);

      var uniqueIps := repo.GetUniqueIPs(linkId, UniqueIpsQuery in faults);
      if uniqueIps.Err? {
        return stats, Some(uniqueIps.error);
      }
      stats := stats.(uniqueIps := uniqueIps.value);

      var countries := repo.GetUniqueCountries(linkId, UniqueCountriesQuery in faults);
      if countries.Err? {
        return stats, Some(countries.error);
      }
      stats := stats.(countriesCount := |countries.value|, countries := countries.value);

      var countryStats, countryErr := repo.GetCountryStats(linkId, CountryStatsQuery in faults);
      if countryErr.Some? {
        return stats, countryErr;
      }
      stats := stats.(countriesStats := countryStats);

      var dailyStats, dailyErr := repo.GetDailyStats(linkId, DailyStatsQuery in faults);
      if dailyErr.Some? {
        return stats, dailyErr;
      }
      stats := stats.(dailyStats := dailyStats);
      return stats, None;
    }

    /** `GetClicks`: the link's clicks, newest first. */
    method GetClicks(linkId: Uuid, down: bool) returns (r: Result<seq<Click>, DbError>)
      ensures down ==> r == Err(Unavailable)
      ensures !down ==> r.Ok? && NewestFirst(r.value)
      ensures !down ==> multiset(r.value) == multiset(OfLink(repo.rows, linkId))
    {
      var found := repo.GetClicksByShortLinkID(linkId, down);
      if found.Err? {
        return Err(found.error);
      }
      var cs := found.value;
      var a := new Click[|cs|](i requires 0 <= i < |cs| => cs[i]);
      assert a[..] == cs;
      SortNewestFirst(a);
      return Ok(a[..]);
    }
  }

  // ---------------------------------------------------------------------
  // Properties of the statistics.

  /** The complete statistics agree with each other: the unique IPs are as
      many as `uniqueIpCount` says and at most as many as the clicks,
      `countriesCount` counts `countries`, the per-country and per-day counts
      add up to the total, and the countries with a count are those listed. */
  lemma FullStatsFacts(rows: seq<Click>, linkId: Uuid)
    ensures var s := FullStats(rows, linkId);
      && s.total == multiset(LinkIds(rows))[linkId]
      && s.uniqueIpCount == |s.uniqueIps| <= s.total
      && s.countriesCount == |s.countries|
      && NoDuplicates(s.uniqueIps) && NoDuplicates(s.countries)
      && SumValues(s.countriesStats) == s.total
      && SumValues(s.dailyStats) == s.total
      && s.countriesStats.Keys == Elems(s.countries)
  {
    var cs := OfLink(rows, linkId);
    OfLinkCount(rows, linkId);
    DistinctCard(Ips(cs));
    CountryStatsSum(rows, linkId);
    DailyStatsSum(rows, linkId);
  }

  /** Whatever query fails, the statistics returned so far never claim more
      countries than they list. */
  lemma PartialCountriesAgree(rows: seq<Click>, linkId: Uuid, k: nat)
    ensures Partial(FullStats(rows, linkId), k).countriesCount == |Partial(FullStats(rows, linkId), k).countries|
  {
  }

  /** With no failing query the statistics are complete. */
  lemma NoFaultsComplete(rows: seq<Click>, linkId: Uuid)
    ensures Partial(FullStats(rows, linkId), Answered({})) == FullStats(rows, linkId)
  {
    assert Answered({}) == |QueryOrder|;
  }
}
