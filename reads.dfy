/**
 * The two read routes besides the ranking: `/api/live-ranking` (a region's
 * live streams by viewer count, at most 50) and `/api/channel-history` (a
 * channel's snapshots, one per date, earliest first, at most 7).
 */
module Reads {
  import opened Wrappers
  import opened Tables
  import opened Ordering

  // ---- /api/live-ranking ----

  const LiveLimit: nat := 50

  /** The columns the route selects: every LiveRankings column but the region. */
  datatype LiveView = LiveView(channelName: string, videoTitle: string, viewers: int,
                               thumbnail: string, videoId: string)

  function ViewOf(x: LiveRow): LiveView {
    LiveView(x.channelName, x.videoTitle, x.viewers, x.thumbnail, x.videoId)
  }

  /** `ORDER BY viewers DESC`. */
  function ViewersKey(x: LiveRow): Key {
    Key(x.viewers, 0, 0)
  }

  /** The region's rows the query keeps, in answer order. */
  function LivePicked(t: seq<LiveRow>, region: string): seq<LiveRow> {
    TopN(RegionRows(t, region), LiveLimit, ViewersKey)
  }

  /** `SELECT ... FROM LiveRankings WHERE region = ? ORDER BY viewers DESC LIMIT 50`. */
  function LiveRanking(t: seq<LiveRow>, region: string): (r: seq<LiveView>)
    ensures |r| == |LivePicked(t, region)|
  {
    var picked := LivePicked(t, region);
    seq(|picked|, i requires 0 <= i < |picked| => ViewOf(picked[i]))
  }

  /**
   * The answer is a correct `ORDER BY viewers DESC LIMIT 50` over the region's
   * rows: each answer row shows a row of that region, viewers never increase
   * down the list, there are min(50, rows of the region) of them, and no row
   * of the region left out has more viewers than one shown.
   */
  lemma LiveRankingSpec(t: seq<LiveRow>, region: string)
    ensures var rows := RegionRows(t, region);
            var picked := LivePicked(t, region);
            var r := LiveRanking(t, region);
      && IsTopN(rows, picked, LiveLimit, ViewersKey)
      && |r| == Min(LiveLimit, |rows|)
      && (forall i :: 0 <= i < |r| ==> picked[i] in t && picked[i].region == region && r[i] == ViewOf(picked[i]))
      && (forall i, j :: 0 <= i < j < |r| ==> r[i].viewers >= r[j].viewers)
      && (forall x :: x in multiset(rows) - multiset(picked) ==> forall i :: 0 <= i < |r| ==> x.viewers <= r[i].viewers)
  {
    LivePickedRows(t, region);
    LivePickedViewers(t, region);
  }

  /** The picked rows are a correct top 50 of the region's rows, and each is a row of that region. */
  lemma LivePickedRows(t: seq<LiveRow>, region: string)
    ensures var rows := RegionRows(t, region);
            var picked := LivePicked(t, region);
      && IsTopN(rows, picked, LiveLimit, ViewersKey)
      && forall i :: 0 <= i < |picked| ==> picked[i] in t && picked[i].region == region
  {
    var rows := RegionRows(t, region);
    var picked := LivePicked(t, region);
    TopNSpec(rows, LiveLimit, ViewersKey);
    forall i | 0 <= i < |picked| ensures picked[i] in t && picked[i].region == region {
      assert picked[i] in multiset(picked);
    }
  }

  /** Viewers never increase down the picked rows, and no row left out has more viewers than one picked. */
  lemma LivePickedViewers(t: seq<LiveRow>, region: string)
    ensures var rows := RegionRows(t, region);
            var picked := LivePicked(t, region);
      && (forall i, j :: 0 <= i < j < |picked| ==> picked[i].viewers >= picked[j].viewers)
      && (forall x :: x in multiset(rows) - multiset(picked) ==>
            forall i :: 0 <= i < |picked| ==> x.viewers <= picked[i].viewers)
  {
    var rows := RegionRows(t, region);
    var picked := LivePicked(t, region);
    TopNSpec(rows, LiveLimit, ViewersKey);
    forall i, j | 0 <= i < j < |picked| ensures picked[i].viewers >= picked[j].viewers {
      assert KeyLe(ViewersKey(picked[j]), ViewersKey(picked[i]));
    }
    forall x | x in multiset(rows) - multiset(picked) ensures forall i :: 0 <= i < |picked| ==> x.viewers <= picked[i].viewers {
      forall i | 0 <= i < |picked| ensures x.viewers <= picked[i].viewers {
        assert picked[i] in picked;
        assert KeyLe(ViewersKey(x), ViewersKey(picked[i]));
      }
    }
  }

  // ---- /api/channel-history ----

  const HistoryLimit: nat := 7

  /** The columns the route selects. */
  datatype HistoryRow = HistoryRow(rankDate: int, subs: int, views: int)

  function HistoryOf(x: StatRow): HistoryRow {
    HistoryRow(x.rankDate, x.subs, x.views)
  }

  /** `ORDER BY rank_date ASC`, written as a descending key on the negated date. */
  function DateKey(x: StatRow): Key {
    Key(-x.rankDate, 0, 0)
  }

  predicate DatesAscending(s: seq<StatRow>) {
    forall i, j :: 0 <= i < j < |s| ==> s[i].rankDate <= s[j].rankDate
  }

  predicate DatesStrictlyAscending(s: seq<StatRow>) {
    forall i, j :: 0 <= i < j < |s| ==> s[i].rankDate < s[j].rankDate
  }

  /**
   * `GROUP BY rank_date` over rows in date order: the first row of each run of
   * equal dates, skipping rows dated `prev` (the date of the group already
   * taken). SQL leaves open which row of a group is shown; the properties
   * proved below hold whichever row of the date is taken.
   */
  function Dedup(s: seq<StatRow>, prev: Option<int>): seq<StatRow>
    decreases |s|
  {
    if s == [] then []
    else if prev == Some(s[0].rankDate) then Dedup(s[1..], prev)
    else [s[0]] + Dedup(s[1..], Some(s[0].rankDate))
  }

  /** Every kept row is a row of the input. */
  lemma {:induction false} DedupMembers(s: seq<StatRow>, prev: Option<int>)
    ensures |Dedup(s, prev)| <= |s|
    ensures forall i :: 0 <= i < |Dedup(s, prev)| ==> Dedup(s, prev)[i] in s
    decreases |s|
  {
    if s != [] {
      var p := if prev == Some(s[0].rankDate) then prev else Some(s[0].rankDate);
      DedupMembers(s[1..], p);
      assert forall x :: x in s[1..] ==> x in s;
      var rest := Dedup(s[1..], p);
      if prev != Some(s[0].rankDate) {
        var r := [s[0]] + rest;
        assert forall i :: 1 <= i < |r| ==> r[i] == rest[i - 1];
      }
    }
  }

  /** On rows in date order, no earlier than `prev`, the kept dates strictly ascend and exceed `prev`. */
  lemma {:induction false} DedupAscending(s: seq<StatRow>, prev: Option<int>)
    requires DatesAscending(s)
    requires prev.Some? ==> forall i :: 0 <= i < |s| ==> prev.value <= s[i].rankDate
    ensures DatesStrictlyAscending(Dedup(s, prev))
    ensures prev.Some? ==> forall i :: 0 <= i < |Dedup(s, prev)| ==> prev.value < Dedup(s, prev)[i].rankDate
    decreases |s|
  {
    if s != [] {
      var p := if prev == Some(s[0].rankDate) then prev else Some(s[0].rankDate);
      assert forall i :: 0 <= i < |s[1..]| ==> s[1..][i] == s[i + 1];
      DedupAscending(s[1..], p);
      var rest := Dedup(s[1..], p);
      if prev != Some(s[0].rankDate) {
        var r := [s[0]] + rest;
        assert forall i :: 1 <= i < |r| ==> r[i] == rest[i - 1];
      }
    }
  }

  /** Some row of `r` is dated `d`. */
  predicate HasDate(r: seq<StatRow>, d: int) {
    exists k :: 0 <= k < |r| && r[k].rankDate == d
  }

  /** Every input date is `prev` or the date of a kept row. */
  lemma {:induction false} DedupCovers(s: seq<StatRow>, prev: Option<int>)
    ensures forall j :: 0 <= j < |s| ==> prev == Some(s[j].rankDate) || HasDate(Dedup(s, prev), s[j].rankDate)
    decreases |s|
  {
    if s != [] {
      var p := if prev == Some(s[0].rankDate) then prev else Some(s[0].rankDate);
      DedupCovers(s[1..], p);
      var rest := Dedup(s[1..], p);
      var r := Dedup(s, prev);
      forall j | 0 <= j < |s|
        ensures prev == Some(s[j].rankDate) || HasDate(r, s[j].rankDate)
      {
        if prev != Some(s[j].rankDate) {
        if prev != Some(s[0].rankDate) {
          assert r == [s[0]] + rest;
          if j > 0 && p != Some(s[j].rankDate) {
            assert s[j] == s[1..][j - 1];
            var k :| 0 <= k < |rest| && rest[k].rankDate == s[j].rankDate;
            assert r[k + 1] == rest[k];
          } else {
            assert r[0].rankDate == s[j].rankDate;
          }
        } else {
          assert r == rest;
          assert s[j] == s[1..][j - 1];
          var k :| 0 <= k < |rest| && rest[k].rankDate == s[j].rankDate;
          assert r[k] == rest[k];
        }
        }
      }
    }
  }

  /** The channel's snapshots in date order. */
  function ByDate(rows: seq<StatRow>): (sorted: seq<StatRow>)
    ensures multiset(sorted) == multiset(rows)
  {
    SortDesc(rows, DateKey)
  }

  lemma ByDateAscending(rows: seq<StatRow>)
    ensures DatesAscending(ByDate(rows))
  {
    var sorted := ByDate(rows);
    SortDescSorted(rows, DateKey);
    forall i, j | 0 <= i < j < |sorted| ensures sorted[i].rankDate <= sorted[j].rankDate {
      assert KeyLe(DateKey(sorted[j]), DateKey(sorted[i]));
    }
  }

  /** `GROUP BY rank_date ORDER BY rank_date ASC`: one row per date, in date order. */
  function DateGroups(rows: seq<StatRow>): seq<StatRow> {
    Dedup(ByDate(rows), None)
  }

  /** One row per date of `rows`, each a row of `rows`, dates strictly ascending, every date present. */
  lemma DateGroupsSpec(rows: seq<StatRow>)
    ensures var g := DateGroups(rows);
      && DatesStrictlyAscending(g)
      && (forall i :: 0 <= i < |g| ==> g[i] in rows)
      && (forall x :: x in rows ==> HasDate(g, x.rankDate))
  {
    var sorted := ByDate(rows);
    ByDateAscending(rows);
    DedupMembers(sorted, None);
    DedupAscending(sorted, None);
    DedupCovers(sorted, None);
    var g := DateGroups(rows);
    forall i | 0 <= i < |g| ensures g[i] in rows {
      assert g[i] in multiset(sorted);
    }
    forall x | x in rows ensures HasDate(g, x.rankDate) {
      assert x in multiset(sorted);
      var j :| 0 <= j < |sorted| && sorted[j] == x;
    }
  }

  /**
   * `SELECT rank_date, subs, views FROM ChannelStats WHERE channel_id = ?
   * GROUP BY rank_date ORDER BY rank_date ASC LIMIT 7`; a missing `id`
   * parameter binds NULL, which no row equals.
   */
  function History(stats: seq<StatRow>, id: Option<string>): seq<HistoryRow> {
    if id.None? then []
    else
      var groups := DateGroups(ChannelRows(stats, id.value));
      var shown := groups[..Min(HistoryLimit, |groups|)];
      seq(|shown|, i requires 0 <= i < |shown| => HistoryOf(shown[i]))
  }

  /** Some history row carries date `d`. */
  predicate DateShown(r: seq<HistoryRow>, d: int) {
    exists i :: 0 <= i < |r| && r[i].rankDate == d
  }

  /**
   * At most 7 rows, dates strictly ascending, each row one of the channel's
   * snapshots, and they are the channel's earliest dates: a date of the
   * channel that is not shown comes after all 7 shown. Without an id the
   * answer is empty.
   */
  lemma HistorySpec(stats: seq<StatRow>, id: Option<string>)
    ensures var r := History(stats, id);
      && |r| <= HistoryLimit
      && (id.None? ==> r == [])
      && (forall i, j :: 0 <= i < j < |r| ==> r[i].rankDate < r[j].rankDate)
      && (forall i :: 0 <= i < |r| ==> exists x :: x in stats && Some(x.channelId) == id && HistoryOf(x) == r[i])
      && (forall x :: x in stats && Some(x.channelId) == id && !DateShown(r, x.rankDate) ==>
            |r| == HistoryLimit && r[HistoryLimit - 1].rankDate < x.rankDate)
  {
    if id.Some? {
      var rows := ChannelRows(stats, id.value);
      var groups := DateGroups(rows);
      DateGroupsSpec(rows);
      var r := History(stats, id);
      assert |r| == Min(HistoryLimit, |groups|);
      assert forall i :: 0 <= i < |r| ==> r[i] == HistoryOf(groups[i]);
      forall i | 0 <= i < |r| ensures exists x :: x in stats && Some(x.channelId) == id && HistoryOf(x) == r[i] {
        assert groups[i] in rows;
      }
      forall x | x in stats && Some(x.channelId) == id && !DateShown(r, x.rankDate)
        ensures |r| == HistoryLimit && r[HistoryLimit - 1].rankDate < x.rankDate
      {
        assert x in rows;
        var k :| 0 <= k < |groups| && groups[k].rankDate == x.rankDate;
        assert forall i :: 0 <= i < |r| ==> groups[i].rankDate != x.rankDate;
        assert groups[HistoryLimit - 1].rankDate < groups[k].rankDate;
      }
    }
  }
}
