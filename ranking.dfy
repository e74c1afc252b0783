/**
 * The `/api/ranking` query: every channel with snapshots, its figures on its
 * own latest snapshot date, its growth since the calendar day before that
 * date, filtered by country, category and title, ordered and cut to 100 rows.
 */
module Ranking {
  import opened Wrappers
  import opened Tables
  import opened Text
  import opened Ordering

  const RankingLimit: nat := 100

  /** `url.searchParams.get(name) || fallback`: an absent or empty parameter takes the fallback. */
  function ParamOr(p: Option<string>, fallback: string): string {
    if p.Some? && p.value != "" then p.value else fallback
  }

  datatype RankParams = RankParams(region: string, sort: string, category: string, search: string)

  /** The query parameters with their defaults: region "KR", sort "growth", category "all", search "". */
  function RankingParams(region: Option<string>, sort: Option<string>,
                         category: Option<string>, search: Option<string>): (p: RankParams)
    ensures p.region != "" && p.sort != "" && p.category != ""
    ensures region.Some? && region.value != "" ==> p.region == region.value
    ensures sort.Some? && sort.value != "" ==> p.sort == sort.value
    ensures category.Some? && category.value != "" ==> p.category == category.value
    ensures (search.Some? ==> p.search == search.value) && (search.None? ==> p.search == "")
    ensures region.None? || region.value == "" ==> p.region == "KR"
    ensures sort.None? || sort.value == "" ==> p.sort == "growth"
    ensures category.None? || category.value == "" ==> p.category == "all"
  {
    RankParams(ParamOr(region, "KR"), ParamOr(sort, "growth"), ParamOr(category, "all"), ParamOr(search, ""))
  }

  /** One result row of the query. */
  datatype RankRow = RankRow(id: string, title: string, category: string, country: string, thumbnail: string,
                             currentSubs: int, currentViews: int,
                             growth: Option<int>, viewsGrowth: Option<int>)

  // ---- LIKE '%search%' ----

  function LowerAscii(s: string): (r: string)
    ensures |r| == |s|
  {
    seq(|s|, i requires 0 <= i < |s| => if 'A' <= s[i] <= 'Z' then (s[i] as int + 32) as char else s[i])
  }

  /** `search` occurs in `title` at position `i`, ignoring ASCII case. */
  predicate OccursAt(title: string, search: string, i: int) {
    0 <= i && i + |search| <= |title| && LowerAscii(title[i..i + |search|]) == LowerAscii(search)
  }

  /** `title LIKE '%' || search || '%'` taken as a substring test that ignores ASCII case. */
  predicate LikeContains(title: string, search: string) {
    exists i :: 0 <= i <= |title| && OccursAt(title, search, i)
  }

  /** The WHERE clause: each filter is skipped for its "match everything" value. */
  predicate Matches(c: Channel, p: RankParams) {
    && (p.region == "ALL" || c.country == p.region)
    && (p.category == "all" || c.category == p.category)
    && (Trim(p.search) == "" || LikeContains(c.title, p.search))
  }

  // ---- Per-channel aggregates ----

  /** `SELECT MAX(rank_date) FROM ChannelStats WHERE channel_id = c.id`. */
  function LatestDate(rows: seq<StatRow>): (d: int)
    requires rows != []
    ensures exists x :: x in rows && x.rankDate == d
    ensures forall x :: x in rows ==> x.rankDate <= d
  {
    if |rows| == 1 then rows[0].rankDate
    else
      var rest := LatestDate(rows[1..]);
      assert forall x :: x in rows[1..] ==> x in rows;
      assert forall x :: x in rows ==> x == rows[0] || x in rows[1..];
      if rows[0].rankDate >= rest then rows[0].rankDate else rest
  }

  /** The largest `metric` among the rows dated `day`; None when no row has that date (the join found nothing). */
  function MaxOn(rows: seq<StatRow>, day: int, metric: StatRow -> int): (m: Option<int>)
    ensures m.None? <==> forall x :: x in rows ==> x.rankDate != day
    ensures m.Some? ==> exists x :: x in rows && x.rankDate == day && metric(x) == m.value
    ensures m.Some? ==> forall x :: x in rows && x.rankDate == day ==> metric(x) <= m.value
  {
    if rows == [] then None
    else
      var rest := MaxOn(rows[1..], day, metric);
      assert forall x :: x in rows[1..] ==> x in rows;
      assert forall x :: x in rows ==> x == rows[0] || x in rows[1..];
      if rows[0].rankDate != day then rest
      else if rest.None? || metric(rows[0]) >= rest.value then Some(metric(rows[0]))
      else rest
  }

  function Subs(x: StatRow): int { x.subs }
  function Views(x: StatRow): int { x.views }

  /** The query's row for a channel: None when the channel has no snapshot (the inner join drops it). */
  function RankRowOf(c: Channel, stats: seq<StatRow>): (r: Option<RankRow>)
    ensures r.Some? <==> ChannelRows(stats, c.id) != []
    ensures r.Some? ==> && r.value.id == c.id && r.value.title == c.title && r.value.category == c.category
                        && r.value.country == c.country && r.value.thumbnail == c.thumbnail
  {
    var rows := ChannelRows(stats, c.id);
    if rows == [] then None else Some(RowOn(c, rows, LatestDate(rows)))
  }

  /** The row of channel `c` from its snapshots `rows`, taking `latest` as today and `latest - 1` as yesterday. */
  function RowOn(c: Channel, rows: seq<StatRow>, latest: int): (r: RankRow)
    requires exists x :: x in rows && x.rankDate == latest
    ensures r.id == c.id && r.title == c.title && r.category == c.category
    ensures r.country == c.country && r.thumbnail == c.thumbnail
  {
    var subs := MaxOn(rows, latest, Subs);
    var views := MaxOn(rows, latest, Views);
    var ySubs := MaxOn(rows, latest - 1, Subs);
    var yViews := MaxOn(rows, latest - 1, Views);
    RankRow(c.id, c.title, c.category, c.country, c.thumbnail,
            subs.value, views.value,
            Since(subs.value, ySubs), Since(views.value, yViews))
  }

  /** `current - previous`, null when there is no previous figure (SQL arithmetic on NULL). */
  function Since(current: int, previous: Option<int>): (g: Option<int>)
    ensures g.None? <==> previous.None?
    ensures g.Some? ==> g.value + previous.value == current
  {
    if previous.None? then None else Some(current - previous.value)
  }

  lemma GrowthOfLift(stats: seq<StatRow>, id: string, d: int, metric: StatRow -> int, cur: int)
    ensures GrowthOf(stats, id, d, metric, cur, Since(cur, MaxOn(ChannelRows(stats, id), d - 1, metric)))
  {
    MaxOnLift(stats, id, d - 1, metric);
  }

  lemma RowOnGrowth(c: Channel, rows: seq<StatRow>, latest: int)
    requires exists x :: x in rows && x.rankDate == latest
    ensures var r := RowOn(c, rows, latest);
      && r.currentSubs == MaxOn(rows, latest, Subs).value
      && r.currentViews == MaxOn(rows, latest, Views).value
      && r.growth == Since(r.currentSubs, MaxOn(rows, latest - 1, Subs))
      && r.viewsGrowth == Since(r.currentViews, MaxOn(rows, latest - 1, Views))
  {
  }

  /** `v` is the largest `metric` among the channel's snapshots dated `day`, and some snapshot has it. */
  ghost predicate IsMaxOn(stats: seq<StatRow>, id: string, day: int, metric: StatRow -> int, v: int) {
    && (exists x :: x in stats && x.channelId == id && x.rankDate == day && metric(x) == v)
    && (forall x :: x in stats && x.channelId == id && x.rankDate == day ==> metric(x) <= v)
  }

  /** No snapshot of the channel carries date `day`. */
  ghost predicate NoRowOn(stats: seq<StatRow>, id: string, day: int) {
    forall x :: x in stats && x.channelId == id ==> x.rankDate != day
  }

  /** `d` is the channel's latest snapshot date. */
  ghost predicate IsLatest(stats: seq<StatRow>, id: string, d: int) {
    && (exists x :: x in stats && x.channelId == id && x.rankDate == d)
    && (forall x :: x in stats && x.channelId == id ==> x.rankDate <= d)
  }

  lemma MaxOnLift(stats: seq<StatRow>, id: string, day: int, metric: StatRow -> int)
    ensures var m := MaxOn(ChannelRows(stats, id), day, metric);
            && (m.None? <==> NoRowOn(stats, id, day))
            && (m.Some? ==> IsMaxOn(stats, id, day, metric, m.value))
  {
  }

  /** The current figures of `r` are the largest dated `d`, the channel's latest snapshot date. */
  ghost predicate CurrentAt(stats: seq<StatRow>, id: string, d: int, r: RankRow) {
    && IsLatest(stats, id, d)
    && IsMaxOn(stats, id, d, Subs, r.currentSubs)
    && IsMaxOn(stats, id, d, Views, r.currentViews)
  }

  /** Growth is null when nothing is dated `d - 1`, and otherwise current minus the largest dated `d - 1`. */
  ghost predicate GrowthSince(stats: seq<StatRow>, id: string, d: int, r: RankRow) {
    GrowthOf(stats, id, d, Subs, r.currentSubs, r.growth)
    && GrowthOf(stats, id, d, Views, r.currentViews, r.viewsGrowth)
  }

  /** `g` is null when nothing is dated `d - 1`, and otherwise `cur` minus the largest `metric` dated `d - 1`. */
  ghost predicate GrowthOf(stats: seq<StatRow>, id: string, d: int, metric: StatRow -> int, cur: int, g: Option<int>) {
    && (g.None? <==> NoRowOn(stats, id, d - 1))
    && (g.Some? ==> IsMaxOn(stats, id, d - 1, metric, cur - g.value))
  }

  ghost predicate FiguresAt(stats: seq<StatRow>, id: string, d: int, r: RankRow) {
    CurrentAt(stats, id, d, r) && GrowthSince(stats, id, d, r)
  }

  /**
   * A channel has a row exactly when it has a snapshot; the row copies the
   * channel's fields and carries the figures of the channel's own latest date.
   */
  lemma RankRowSpec(c: Channel, stats: seq<StatRow>)
    ensures RankRowOf(c, stats).Some? <==> exists x :: x in stats && x.channelId == c.id
    ensures RankRowOf(c, stats).Some? ==>
      var r := RankRowOf(c, stats).value;
      && r.id == c.id && r.title == c.title && r.category == c.category
      && r.country == c.country && r.thumbnail == c.thumbnail
      && exists d :: FiguresAt(stats, c.id, d, r)
  {
    var rows := ChannelRows(stats, c.id);
    if rows != [] {
      var d := LatestDate(rows);
      RowOnFigures(c, stats);
      assert FiguresAt(stats, c.id, d, RankRowOf(c, stats).value);
    } else {
      assert forall x :: x in stats && x.channelId == c.id ==> x in rows;
    }
  }

  /** The row built from a channel's snapshots carries the figures of its latest date. */
  lemma RowOnFigures(c: Channel, stats: seq<StatRow>)
    requires ChannelRows(stats, c.id) != []
    ensures var rows := ChannelRows(stats, c.id);
            var d := LatestDate(rows);
            FiguresAt(stats, c.id, d, RowOn(c, rows, d))
  {
    RowOnCurrent(c, stats);
    RowOnGrowthSince(c, stats);
  }

  lemma RowOnCurrent(c: Channel, stats: seq<StatRow>)
    requires ChannelRows(stats, c.id) != []
    ensures var rows := ChannelRows(stats, c.id);
            var d := LatestDate(rows);
            CurrentAt(stats, c.id, d, RowOn(c, rows, d))
  {
    var rows := ChannelRows(stats, c.id);
    var d := LatestDate(rows);
    RowOnGrowth(c, rows, d);
    MaxOnLift(stats, c.id, d, Subs);
    MaxOnLift(stats, c.id, d, Views);
  }

  lemma RowOnGrowthSince(c: Channel, stats: seq<StatRow>)
    requires ChannelRows(stats, c.id) != []
    ensures var rows := ChannelRows(stats, c.id);
            var d := LatestDate(rows);
            GrowthSince(stats, c.id, d, RowOn(c, rows, d))
  {
    var rows := ChannelRows(stats, c.id);
    var d := LatestDate(rows);
    var r := RowOn(c, rows, d);
    RowOnGrowth(c, rows, d);
    GrowthOfLift(stats, c.id, d, Subs, r.currentSubs);
    GrowthOfLift(stats, c.id, d, Views, r.currentViews);
  }

  /** The rows that pass the join and the WHERE clause, one per channel, in Channels order. */
  function Candidates(channels: seq<Channel>, stats: seq<StatRow>, p: RankParams): (r: seq<RankRow>)
    ensures |r| <= |channels|
  {
    if channels == [] then [] else CandidateOf(channels[0], stats, p) + Candidates(channels[1..], stats, p)
  }

  /** The channel's row when it passes the filters and has a snapshot; nothing otherwise. */
  function CandidateOf(c: Channel, stats: seq<StatRow>, p: RankParams): (r: seq<RankRow>)
    ensures |r| <= 1
    ensures forall i :: 0 <= i < |r| ==> r[i].id == c.id
    ensures r != [] <==> Matches(c, p) && RankRowOf(c, stats).Some?
    ensures r != [] ==> r[0] == RankRowOf(c, stats).value
  {
    var row := RankRowOf(c, stats);
    if Matches(c, p) && row.Some? then [row.value] else []
  }

  /** Every candidate's id is a Channels id. */
  lemma {:induction false} CandidateIds(channels: seq<Channel>, stats: seq<StatRow>, p: RankParams)
    ensures forall i :: 0 <= i < |Candidates(channels, stats, p)| ==>
              IdIndex(channels, Candidates(channels, stats, p)[i].id).Some?
    decreases |channels|
  {
    if channels != [] {
      CandidateIds(channels[1..], stats, p);
      IdIndexTail(channels);
      var head := CandidateOf(channels[0], stats, p);
      var rest := Candidates(channels[1..], stats, p);
      var all := head + rest;
      forall i | 0 <= i < |all| ensures IdIndex(channels, all[i].id).Some? {
        if i < |head| {
          assert all[i] == head[i];
        } else {
          assert all[i] == rest[i - |head|];
          assert IdIndex(channels[1..], all[i].id).Some?;
        }
      }
    }
  }

  /** An id found in the tail is found in the whole table. */
  lemma IdIndexTail(t: seq<Channel>)
    requires t != []
    ensures forall id :: IdIndex(t[1..], id).Some? ==> IdIndex(t, id).Some?
    ensures IdIndex(t, t[0].id).Some?
  {
  }

  /** `current_views DESC` for sort "views", otherwise `growth DESC, current_subs DESC`, nulls last. */
  function RankKey(sort: string): RankRow -> Key {
    if sort == "views" then (r: RankRow) => Key(r.currentViews, 0, 0)
    else (r: RankRow) => Key(if r.growth.Some? then 1 else 0, r.growth.GetOr(0), r.currentSubs)
  }

  /** The `/api/ranking` answer. */
  function RankingQuery(channels: seq<Channel>, stats: seq<StatRow>, p: RankParams): seq<RankRow> {
    TopN(Candidates(channels, stats, p), RankingLimit, RankKey(p.sort))
  }

  /** Candidates holds a row exactly for the channels that pass the filters and have a snapshot. */
  lemma {:induction false} CandidatesMembers(channels: seq<Channel>, stats: seq<StatRow>, p: RankParams)
    ensures forall r :: r in Candidates(channels, stats, p) <==>
              exists c :: c in channels && Matches(c, p) && RankRowOf(c, stats) == Some(r)
    decreases |channels|
  {
    if channels != [] {
      CandidatesMembers(channels[1..], stats, p);
      assert forall d :: d in channels <==> d == channels[0] || d in channels[1..];
    }
  }

  predicate DistinctIds(rows: seq<RankRow>) {
    forall i, j :: 0 <= i < j < |rows| ==> rows[i].id != rows[j].id
  }

  /** With Channels' ids distinct, every channel yields at most one candidate. */
  lemma {:induction false} CandidatesDistinct(channels: seq<Channel>, stats: seq<StatRow>, p: RankParams)
    requires UniqueIds(channels)
    ensures DistinctIds(Candidates(channels, stats, p))
    decreases |channels|
  {
    if channels != [] {
      var tail := channels[1..];
      CandidatesDistinct(tail, stats, p);
      CandidateIds(tail, stats, p);
      var rest := Candidates(tail, stats, p);
      var head := CandidateOf(channels[0], stats, p);
      if head != [] {
        var all := head + rest;
        forall i, j | 0 <= i < j < |all| ensures all[i].id != all[j].id {
          var k := IdIndex(tail, all[j].id).value;
          assert channels[k + 1].id == all[j].id;
          if i > 0 {
            assert all[i] == rest[i - 1];
          } else {
            assert all[i] == head[0];
          }
        }
      }
    }
  }

  /** In a row list with distinct ids, a row occurs at most once. */
  lemma {:induction false} DistinctIdsCountOnce(rows: seq<RankRow>, x: RankRow)
    requires DistinctIds(rows)
    ensures multiset(rows)[x] <= 1
    decreases |rows|
  {
    if rows != [] {
      assert rows == [rows[0]] + rows[1..];
      DistinctIdsCountOnce(rows[1..], x);
      if rows[0] == x {
        assert x !in rows[1..];
      }
    }
  }

  /** In a row list with distinct ids, a row is determined by its id. */
  lemma DistinctIdsSameRow(rows: seq<RankRow>, x: RankRow, y: RankRow)
    requires DistinctIds(rows) && x in rows && y in rows && x.id == y.id
    ensures x == y
  {
    var a :| 0 <= a < |rows| && rows[a] == x;
    var b :| 0 <= b < |rows| && rows[b] == y;
  }

  /** A sub-multiset of a list with distinct ids has distinct ids. */
  lemma DistinctIdsSub(rows: seq<RankRow>, r: seq<RankRow>)
    requires DistinctIds(rows) && multiset(r) <= multiset(rows)
    ensures DistinctIds(r)
  {
    forall i, j | 0 <= i < j < |r| ensures r[i].id != r[j].id {
      if r[i].id == r[j].id {
        assert r[i] in multiset(r) && r[j] in multiset(r);
        DistinctIdsSameRow(rows, r[i], r[j]);
        assert r == r[..i] + [r[i]] + r[i + 1..j] + [r[j]] + r[j + 1..];
        assert multiset(r)[r[i]] >= 2;
        DistinctIdsCountOnce(rows, r[i]);
      }
    }
  }

  /**
   * The answer is a correct `ORDER BY ... LIMIT 100` over the candidates: at
   * most 100 rows, each channel at most once, sorted by the requested key, and
   * no candidate left out ranks above one kept; with at most 100 candidates,
   * every matching channel with a snapshot is present.
   */
  lemma RankingQuerySpec(channels: seq<Channel>, stats: seq<StatRow>, p: RankParams)
    requires UniqueIds(channels)
    ensures var cands := Candidates(channels, stats, p);
            var r := RankingQuery(channels, stats, p);
      && IsTopN(cands, r, RankingLimit, RankKey(p.sort))
      && |r| <= RankingLimit
      && DistinctIds(r)
      && (|cands| <= RankingLimit ==> multiset(r) == multiset(cands))
  {
    var cands := Candidates(channels, stats, p);
    TopNSpec(cands, RankingLimit, RankKey(p.sort));
    CandidatesDistinct(channels, stats, p);
    DistinctIdsSub(cands, RankingQuery(channels, stats, p));
    if |cands| <= RankingLimit {
      var sorted := SortDesc(cands, RankKey(p.sort));
      assert sorted[..|cands|] == sorted;
    }
  }

  /**
   * What the sort key means: for sort "views", current_views never increases
   * down the list; otherwise a null growth never precedes a numeric one,
   * growth never increases, and on equal growth current_subs never increases.
   */
  lemma RankOrderMeaning(r: seq<RankRow>, sort: string, i: int, j: int)
    requires SortedDesc(r, RankKey(sort)) && 0 <= i < j < |r|
    ensures sort == "views" ==> r[i].currentViews >= r[j].currentViews
    ensures sort != "views" ==>
      && (r[j].growth.Some? ==> r[i].growth.Some? && r[i].growth.value >= r[j].growth.value)
      && (r[i].growth == r[j].growth ==> r[i].currentSubs >= r[j].currentSubs)
  {
    assert KeyLe(RankKey(sort)(r[j]), RankKey(sort)(r[i]));
  }
}
