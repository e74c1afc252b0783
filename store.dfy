/**
 * The D1 database the handler writes, and the three collection handlers as
 * methods that change it step by step, each proved to end in the state its
 * specification function describes.
 */
module Store {
  import opened Wrappers
  import opened Tables
  import opened Upstream
  import opened Calendar
  import opened Discovery
  import opened DailySync
  import opened LiveSync

  class Database {
    var channels: seq<Channel>
    var stats: seq<StatRow>
    var liveRankings: seq<LiveRow>

    /** Channels' primary key. */
    ghost predicate Valid()
      reads this
    {
      UniqueIds(channels)
    }

    constructor (channels0: seq<Channel>, stats0: seq<StatRow>, live0: seq<LiveRow>)
      requires UniqueIds(channels0)
      ensures Valid()
      ensures channels == channels0 && stats == stats0 && liveRankings == live0
    {
      channels, stats, liveRankings := channels0, stats0, live0;
    }

    /** performMassDiscover(region): one popular-videos request and one upsert batch per category. */
    method PerformMassDiscover(region: string, popular: PopularRequest -> Response<PopularVideo>)
      returns (outcome: Outcome)
      requires Valid()
      modifies this
      ensures Valid()
      ensures (channels, outcome) == Discover(old(channels), region, Categories, popular)
      ensures stats == old(stats) && liveRankings == old(liveRankings)
    {
      var k := 0;
      while k < |Categories|
        invariant 0 <= k <= |Categories|
        invariant UniqueIds(channels)
        invariant Discover(old(channels), region, Categories, popular)
                  == Discover(channels, region, Categories[k..], popular)
        invariant stats == old(stats) && liveRankings == old(liveRankings)
      {
        assert Categories[k..][0] == Categories[k] && Categories[k..][1..] == Categories[k + 1..];
        var res := popular(PopularRequest(region, Categories[k]));
        if res.NetworkError? {
          return Threw;
        }
        if res.items.Some? {
          var items := res.items.value;
          ghost var start := channels;
          for j := 0 to |items|
            invariant UniqueIds(channels)
            invariant UpsertAll(start, items, region) == UpsertAll(channels, items[j..], region)
            invariant stats == old(stats) && liveRankings == old(liveRankings)
          {
            assert items[j..][0] == items[j] && items[j..][1..] == items[j + 1..];
            UpsertCountrySpec(channels, ChannelOf(items[j], region));
            channels := UpsertCountry(channels, ChannelOf(items[j], region));
          }
        }
        k := k + 1;
      }
      outcome := Completed;
    }

    /**
     * handleDailySync: the ids in table order are batched by 50; for each
     * batch's returned channels, the thumbnail is updated and today's
     * snapshot written. An unprintable clock makes getKSTDate throw before any write.
     */
    method HandleDailySync(nowMs: int, lookup: ChannelsRequest -> Response<ChannelItem>)
      returns (outcome: Outcome)
      requires Valid()
      modifies this
      ensures Valid()
      ensures GetKstDate(nowMs, 0).Err? ==>
                outcome == Threw && channels == old(channels) && stats == old(stats)
      ensures GetKstDate(nowMs, 0).Ok? ==>
                var chunks := Chunks(Ids(old(channels)));
                var items := SyncedItems(chunks, lookup);
                && outcome == AllAnswered(chunks, lookup)
                && channels == ThumbAll(old(channels), items)
                && stats == StatAll(old(stats), items, KstDay(nowMs, 0))
      ensures liveRankings == old(liveRankings)
    {
      var ids := Ids(channels);
      var chunks := BuildChunks(ids);
      var date := GetKstDate(nowMs, 0);
      if date.Err? {
        return Threw;
      }
      outcome := SyncChunks(chunks, KstDay(nowMs, 0), lookup);
      ThumbAllSpec(old(channels), SyncedItems(chunks, lookup));
    }

    /** The batch loop of handleDailySync: one `channels` request per batch, then its writes. */
    method SyncChunks(chunks: seq<seq<string>>, today: int, lookup: ChannelsRequest -> Response<ChannelItem>)
      returns (outcome: Outcome)
      modifies this
      ensures outcome == AllAnswered(chunks, lookup)
      ensures channels == ThumbAll(old(channels), SyncedItems(chunks, lookup))
      ensures stats == StatAll(old(stats), SyncedItems(chunks, lookup), today)
      ensures liveRankings == old(liveRankings)
    {
      ghost var all := SyncedItems(chunks, lookup);
      ghost var done: seq<ChannelItem> := [];
      var k := 0;
      while k < |chunks|
        invariant 0 <= k <= |chunks|
        invariant all == done + SyncedItems(chunks[k..], lookup)
        invariant AllAnswered(chunks, lookup) == AllAnswered(chunks[k..], lookup)
        invariant channels == ThumbAll(old(channels), done)
        invariant stats == StatAll(old(stats), done, today)
        invariant liveRankings == old(liveRankings)
      {
        var res := lookup(ChannelsRequest(chunks[k]));
        if res.NetworkError? {
          SyncStep(chunks, k, lookup);
          assert done + [] == done;
          return Threw;
        }
        SyncAdvance(chunks, k, lookup, done);
        if res.items.Some? {
          var items := res.items.value;
          ThumbAllConcat(old(channels), done, items);
          StatAllConcat(old(stats), done, items, today);
          WriteBatch(items, today);
          done := done + items;
        } else {
          assert done + [] == done;
        }
        k := k + 1;
      }
      assert done + [] == done;
      outcome := Completed;
    }

    /** One batch of `UPDATE Channels SET thumbnail` and `INSERT OR REPLACE INTO ChannelStats` statements. */
    method WriteBatch(items: seq<ChannelItem>, today: int)
      modifies this
      ensures channels == ThumbAll(old(channels), items)
      ensures stats == StatAll(old(stats), items, today)
      ensures liveRankings == old(liveRankings)
    {
      for j := 0 to |items|
        invariant ThumbAll(old(channels), items) == ThumbAll(channels, items[j..])
        invariant StatAll(old(stats), items, today) == StatAll(stats, items[j..], today)
        invariant liveRankings == old(liveRankings)
      {
        assert items[j..][0] == items[j] && items[j..][1..] == items[j + 1..];
        channels := SetThumbnail(channels, items[j].id, items[j].defaultThumbnail);
        stats := ReplaceStat(stats, StatOf(items[j], today));
      }
    }

    /**
     * syncLiveStreams(region): a keyword search; when it finds videos, their
     * details are looked up, the region's rows deleted and one row per
     * returned video inserted.
     */
    method SyncLiveStreams(region: string, search: SearchRequest -> Response<string>,
                           videos: VideosRequest -> Response<VideoItem>)
      returns (outcome: Outcome)
      modifies this
      ensures (liveRankings, outcome) == SyncLive(old(liveRankings), region, search, videos)
      ensures channels == old(channels) && stats == old(stats)
    {
      var (query, lang) := RegionQuery(region);
      var found := search(SearchRequest(region, query, lang));
      if found.NetworkError? {
        return Threw;
      }
      if found.items.None? || |found.items.value| == 0 {
        return Completed;
      }
      var details := videos(VideosRequest(found.items.value));
      if details.NetworkError? {
        return Threw;
      }
      liveRankings := DeleteRegion(liveRankings, region);
      if details.items.None? {
        return Threw;
      }
      var vs := details.items.value;
      var rows: seq<LiveRow> := [];
      for j := 0 to |vs|
        invariant rows == LiveRowsOf(vs[..j], region)
      {
        rows := rows + [LiveRowOf(vs[j], region)];
      }
      assert vs[..|vs|] == vs;
      liveRankings := liveRankings + rows;
      outcome := Completed;
    }
  }
}
