/** The link-service's `clicks` table and its repository: one row per
    redirect, with the link it belongs to, the visitor's IP and user agent,
    the country and region found for the IP, and the time of the click. The
    aggregate queries are read as `WHERE short_link_id = ?` followed by a
    `COUNT`, a `DISTINCT` or a `GROUP BY ... COUNT(*)`. */
module Clicks {
  import opened Wrappers
  import opened GoTime
  import opened Uuid
  import opened Seqs
  import opened Store

  datatype Click = Click(id: Uuid, shortLinkId: Uuid, ip: string, userAgent: string,
                         country: string, region: string, clickedAt: Time)

  const DayLength: Duration := 24 * Hour

  /** `DATE(clicked_at)` in UTC, as the number of days since 1970-01-01. */
  function DayOf(t: Time): (d: int)
    ensures d * DayLength <= t < d * DayLength + DayLength
  {
    t / DayLength
  }

  predicate IdsUnique(rows: seq<Click>) {
    forall i, j :: 0 <= i < j < |rows| ==> rows[i].id != rows[j].id
  }

  predicate HasId(rows: seq<Click>, id: Uuid) {
    exists i :: 0 <= i < |rows| && rows[i].id == id
  }

  /** `WHERE short_link_id = ?`, in table order. */
  function OfLink(rows: seq<Click>, linkId: Uuid): seq<Click> {
    Filter((c: Click) => c.shortLinkId == linkId, rows)
  }

  /** The `short_link_id` column. */
  function LinkIds(rows: seq<Click>): (r: seq<Uuid>)
    ensures |r| == |rows| && forall i :: 0 <= i < |rows| ==> r[i] == rows[i].shortLinkId
  {
    seq(|rows|, i requires 0 <= i < |rows| => rows[i].shortLinkId)
  }

  /** The `ip` column. */
  function Ips(rows: seq<Click>): (r: seq<string>)
    ensures |r| == |rows| && forall i :: 0 <= i < |rows| ==> r[i] == rows[i].ip
  {
    seq(|rows|, i requires 0 <= i < |rows| => rows[i].ip)
  }

  /** The `country` column. */
  function Countries(rows: seq<Click>): (r: seq<string>)
    ensures |r| == |rows| && forall i :: 0 <= i < |rows| ==> r[i] == rows[i].country
  {
    seq(|rows|, i requires 0 <= i < |rows| => rows[i].country)
  }

  /** The `DATE(clicked_at)` column. */
  function Days(rows: seq<Click>): (r: seq<int>)
    ensures |r| == |rows| && forall i :: 0 <= i < |rows| ==> r[i] == DayOf(rows[i].clickedAt)
  {
    seq(|rows|, i requires 0 <= i < |rows| => DayOf(rows[i].clickedAt))
  }

  /** The map `GetCountryStats` builds from `GROUP BY country`. */
  function CountryStatsOf(rows: seq<Click>, linkId: Uuid): map<string, nat> {
    RowsToMap(GroupBy(Countries(OfLink(rows, linkId))))
  }

  /** The map `GetDailyStats` builds from `GROUP BY day`. */
  function DailyStatsOf(rows: seq<Click>, linkId: Uuid): map<int, nat> {
    RowsToMap(GroupBy(Days(OfLink(rows, linkId))))
  }

  /** The `for rows.Next() { stats[key] = cnt }` loop of both grouped queries. */
  method ScanGroups<K>(groups: seq<(K, nat)>) returns (stats: map<K, nat>)
    requires NoDuplicates(Keys(groups))
    ensures stats == RowsToMap(groups)
  {
    stats := map[];
    var i := 0;
    while i < |groups|
      invariant 0 <= i <= |groups|
      invariant stats == RowsToMap(groups[..i])
    {
      assert groups[..i + 1] == groups[..i] + [groups[i]];
      assert groups[i].0 !in Keys(groups[..i]);
      RowsToMapSnoc(groups[..i], groups[i]);
      stats := stats[groups[i].0 := groups[i].1];
      i := i + 1;
    }
    assert groups[..i] == groups;
  }

  class ClickRepository {
    var rows: seq<Click>

    ghost predicate Valid()
      reads this
    {
      IdsUnique(rows)
    }

    constructor ()
      ensures Valid() && rows == []
    {
      rows := [];
    }

    /** `Create`: stores the click under the fresh `id` of `BeforeCreate`. */
    method Create(click: Click, id: Uuid, down: bool) returns (err: Option<DbError>)
      requires Valid()
      modifies this
      ensures Valid()
      ensures err == (if down then Some(Unavailable)
                      else if HasId(old(rows), id) then Some(UniqueViolation("id"))
                      else None)
      ensures rows == if err.None? then old(rows) + [click.(id := id)] else old(rows)
    {
      if down {
        return Some(Unavailable);
      }
      if exists i :: 0 <= i < |rows| && rows[i].id == id {
        return Some(UniqueViolation("id"));
      }
      rows := rows + [click.(id := id)];
      return None;
    }

    /** `GetClicksByShortLinkID`: the link's clicks. */
    function GetClicksByShortLinkID(linkId: Uuid, down: bool): (r: Result<seq<Click>, DbError>)
      reads this
      ensures r.Err? <==> down
      ensures r.Ok? ==> forall c :: c in r.value <==> c in rows && c.shortLinkId == linkId
      ensures r.Ok? ==> |r.value| == multiset(LinkIds(rows))[linkId]
    {
      if down then Err(Unavailable)
      else
        OfLinkCount(rows, linkId);
        Ok(OfLink(rows, linkId))
    }

    /** `GetCount`: how many clicks the link has. */
    function GetCount(linkId: Uuid, down: bool): (r: Result<nat, DbError>)
      reads this
      ensures r.Err? <==> down
      ensures r.Ok? ==> r.value == multiset(LinkIds(rows))[linkId]
    {
      if down then Err(Unavailable)
      else
        OfLinkCount(rows, linkId);
        Ok(|OfLink(rows, linkId)|)
    }

    /** `GetUniqueIPCount`: `COUNT(DISTINCT ip)` over the link's clicks. */
    function GetUniqueIPCount(linkId: Uuid, down: bool): (r: Result<nat, DbError>)
      reads this
      ensures r.Err? <==> down
      ensures r.Ok? ==> r.value == |Elems(Ips(OfLink(rows, linkId)))|
      ensures r.Ok? ==> r.value <= |OfLink(rows, linkId)|
    {
      if down then Err(Unavailable)
      else
        DistinctCard(Ips(OfLink(rows, linkId)));
        Ok(|Distinct(Ips(OfLink(rows, linkId)))|)
    }

    /** `GetUniqueIPs`: each IP that clicked the link, once. */
    function GetUniqueIPs(linkId: Uuid, down: bool): (r: Result<seq<string>, DbError>)
      reads this
      ensures r.Err? <==> down
      ensures r.Ok? ==> NoDuplicates(r.value)
      ensures r.Ok? ==> forall ip :: ip in r.value <==> exists c :: c in rows && c.shortLinkId == linkId && c.ip == ip
    {
      if down then Err(Unavailable)
      else
        ColumnMembers(rows, linkId);
        Ok(Distinct(Ips(OfLink(rows, linkId))))
    }

    /** `GetUniqueCountries`: each country the link was clicked from, once. */
    function GetUniqueCountries(linkId: Uuid, down: bool): (r: Result<seq<string>, DbError>)
      reads this
      ensures r.Err? <==> down
      ensures r.Ok? ==> NoDuplicates(r.value)
      ensures r.Ok? ==> forall k :: k in r.value <==> exists c :: c in rows && c.shortLinkId == linkId && c.country == k
    {
      if down then Err(Unavailable)
      else
        ColumnMembers(rows, linkId);
        Ok(Distinct(Countries(OfLink(rows, linkId))))
    }

    /** `GetCountryStats`: each country the link was clicked from, with its
        number of clicks; nil and the error when the query fails. */
    method GetCountryStats(linkId: Uuid, down: bool) returns (stats: map<string, nat>, err: Option<DbError>)
      ensures err == if down then Some(Unavailable) else None
      ensures down ==> stats == map[]
      ensures !down ==> stats == CountryStatsOf(rows, linkId)
      ensures !down ==> forall k :: k in stats <==> k in Countries(OfLink(rows, linkId))
      ensures !down ==> forall k :: k in stats ==> stats[k] == multiset(Countries(OfLink(rows, linkId)))[k]
    {
      if down {
        return map[], Some(Unavailable);
      }
      var groups := GroupBy(Countries(OfLink(rows, linkId)));
      GroupByFacts(Countries(OfLink(rows, linkId)));
      RowsToMapSum(groups);
      stats := ScanGroups(groups);
      return stats, None;
    }

    /** `GetDailyStats`: each day the link was clicked on, with its number of clicks. */
    method GetDailyStats(linkId: Uuid, down: bool) returns (stats: map<int, nat>, err: Option<DbError>)
      ensures err == if down then Some(Unavailable) else None
      ensures down ==> stats == map[]
      ensures !down ==> stats == DailyStatsOf(rows, linkId)
      ensures !down ==> forall d :: d in stats <==> d in Days(OfLink(rows, linkId))
      ensures !down ==> forall d :: d in stats ==> stats[d] == multiset(Days(OfLink(rows, linkId)))[d]
    {
      if down {
        return map[], Some(Unavailable);
      }
      var groups := GroupBy(Days(OfLink(rows, linkId)));
      GroupByFacts(Days(OfLink(rows, linkId)));
      RowsToMapSum(groups);
      stats := ScanGroups(groups);
      return stats, None;
    }

    /** `DeleteClicksByShortLinkID` */
    method DeleteClicksByShortLinkID(linkId: Uuid, down: bool) returns (err: Option<DbError>)
      requires Valid()
      modifies this
      ensures Valid()
      ensures err == (if down then Some(Unavailable) else None)
      ensures rows == if down then old(rows) else Filter((c: Click) => c.shortLinkId != linkId, old(rows))
    {
      if down {
        return Some(Unavailable);
      }
      FilterKeepsIds(rows, linkId);
      rows := Filter((c: Click) => c.shortLinkId != linkId, rows);
      return None;
    }
  }

  // ---------------------------------------------------------------------
  // Properties of the queries.

  /** The number of a link's clicks is the number of times its id occurs in
      the `short_link_id` column. */
  lemma {:induction false} OfLinkCount(rows: seq<Click>, linkId: Uuid)
    ensures |OfLink(rows, linkId)| == multiset(LinkIds(rows))[linkId]
  {
    if rows != [] {
      OfLinkCount(rows[1..], linkId);
      assert LinkIds(rows) == [rows[0].shortLinkId] + LinkIds(rows[1..]);
    }
  }

  /** The values of a link's column are those of the clicks of that link. */
  lemma ColumnMembers(rows: seq<Click>, linkId: Uuid)
    ensures forall ip :: ip in Ips(OfLink(rows, linkId)) <==> exists c :: c in rows && c.shortLinkId == linkId && c.ip == ip
    ensures forall k :: k in Countries(OfLink(rows, linkId)) <==> exists c :: c in rows && c.shortLinkId == linkId && c.country == k
  {
    var cs := OfLink(rows, linkId);
    forall ip | ip in Ips(cs)
      ensures exists c :: c in rows && c.shortLinkId == linkId && c.ip == ip
    {
      var i :| 0 <= i < |cs| && Ips(cs)[i] == ip;
      assert cs[i] in cs;
    }
    forall ip | exists c :: c in rows && c.shortLinkId == linkId && c.ip == ip
      ensures ip in Ips(cs)
    {
      var c :| c in rows && c.shortLinkId == linkId && c.ip == ip;
      var i :| 0 <= i < |cs| && cs[i] == c;
      assert Ips(cs)[i] == ip;
    }
    forall k | k in Countries(cs)
      ensures exists c :: c in rows && c.shortLinkId == linkId && c.country == k
    {
      var i :| 0 <= i < |cs| && Countries(cs)[i] == k;
      assert cs[i] in cs;
    }
    forall k | exists c :: c in rows && c.shortLinkId == linkId && c.country == k
      ensures k in Countries(cs)
    {
      var c :| c in rows && c.shortLinkId == linkId && c.country == k;
      var i :| 0 <= i < |cs| && cs[i] == c;
      assert Countries(cs)[i] == k;
    }
  }

  /** The per-country counts add up to the link's click count, and the
      countries are exactly those `GetUniqueCountries` lists. */
  lemma CountryStatsSum(rows: seq<Click>, linkId: Uuid)
    ensures SumValues(CountryStatsOf(rows, linkId)) == |OfLink(rows, linkId)|
    ensures CountryStatsOf(rows, linkId).Keys == Elems(Distinct(Countries(OfLink(rows, linkId))))
  {
    var ks := Countries(OfLink(rows, linkId));
    GroupByFacts(ks);
    RowsToMapSum(GroupBy(ks));
  }

  /** The per-day counts add up to the link's click count. */
  lemma DailyStatsSum(rows: seq<Click>, linkId: Uuid)
    ensures SumValues(DailyStatsOf(rows, linkId)) == |OfLink(rows, linkId)|
  {
    var ks := Days(OfLink(rows, linkId));
    GroupByFacts(ks);
    RowsToMapSum(GroupBy(ks));
  }

  lemma FilterKeepsIds(rows: seq<Click>, linkId: Uuid)
    requires IdsUnique(rows)
    ensures IdsUnique(Filter((c: Click) => c.shortLinkId != linkId, rows))
  {
    SubsequenceIdsUnique(rows, (c: Click) => c.shortLinkId != linkId);
  }

  lemma {:induction false} SubsequenceIdsUnique(rows: seq<Click>, p: Click -> bool)
    requires IdsUnique(rows)
    ensures IdsUnique(Filter(p, rows))
  {
    if rows != [] {
      var tail := rows[1..];
      assert IdsUnique(tail) by {
        assert forall i :: 0 <= i < |tail| ==> tail[i] == rows[i + 1];
      }
      SubsequenceIdsUnique(tail, p);
      var rest := Filter(p, tail);
      assert Filter(p, rows) == (if p(rows[0]) then [rows[0]] else []) + rest;
      forall k | 0 <= k < |rest|
        ensures rest[k].id != rows[0].id
      {
        assert rest[k] in tail;
      }
    }
  }

  /** Deleting a link's clicks leaves it none and leaves every other link's
      clicks as they were. */
  lemma {:induction false} DeleteFacts(rows: seq<Click>, linkId: Uuid, other: Uuid)
    ensures OfLink(Filter((c: Click) => c.shortLinkId != linkId, rows), linkId) == []
    ensures other != linkId ==>
      OfLink(Filter((c: Click) => c.shortLinkId != linkId, rows), other) == OfLink(rows, other)
  {
    var keep := (c: Click) => c.shortLinkId != linkId;
    if rows != [] {
      DeleteFacts(rows[1..], linkId, other);
      var head := if keep(rows[0]) then [rows[0]] else [];
      assert Filter(keep, rows) == head + Filter(keep, rows[1..]);
      FilterAppend((c: Click) => c.shortLinkId == linkId, head, Filter(keep, rows[1..]));
      FilterAppend((c: Click) => c.shortLinkId == other, head, Filter(keep, rows[1..]));
    }
  }

  /** A stored click is one more click of its link, and of that link only. */
  lemma CreateFacts(rows: seq<Click>, c: Click, linkId: Uuid)
    ensures OfLink(rows + [c], linkId) == OfLink(rows, linkId) + (if c.shortLinkId == linkId then [c] else [])
  {
    FilterAppend((x: Click) => x.shortLinkId == linkId, rows, [c]);
  }
}
