/**
 * `syncLiveStreams`: one keyword search for live videos in a region, one
 * details lookup for the videos found, and the region's LiveRankings rows
 * replaced by one row per video (delete, then insert).
 */
module LiveSync {
  import opened Wrappers
  import opened Tables
  import opened Upstream

  /** The search keyword and relevance language for a region; any other region searches "live" in English. */
  function RegionQuery(region: string): (r: (string, string))
    ensures region == "KR" ==> r == ("라이브", "ko")
    ensures region == "JP" ==> r == ("ライブ", "ja")
    ensures region == "BR" ==> r == ("ao vivo", "pt")
    ensures region == "IN" ==> r == ("live", "hi")
    ensures region !in {"KR", "JP", "BR", "IN"} ==> r == ("live", "en")
  {
    if region == "KR" then ("라이브", "ko")
    else if region == "JP" then ("ライブ", "ja")
    else if region == "BR" then ("ao vivo", "pt")
    else if region == "IN" then ("live", "hi")
    else ("live", "en")
  }

  /** The search request the handler sends for a region. */
  function SearchFor(region: string): SearchRequest {
    var (q, lang) := RegionQuery(region);
    SearchRequest(region, q, lang)
  }

  /** Four regions get their own language; the rest share English. */
  lemma RegionLanguages(a: string, b: string)
    requires a in {"KR", "JP", "BR", "IN"} && a != b
    ensures RegionQuery(a).1 != RegionQuery(b).1
  {
  }

  /** `thumbnails.high?.url || thumbnails.default.url`. */
  function ThumbnailOf(v: VideoItem): string {
    if v.highThumbnail.Some? && v.highThumbnail.value != "" then v.highThumbnail.value else v.defaultThumbnail
  }

  /** The LiveRankings row inserted for a video; no concurrent-viewer count means 0 viewers. */
  function LiveRowOf(v: VideoItem, region: string): (row: LiveRow)
    ensures row.region == region && row.videoId == v.id
    ensures row.channelName == v.channelTitle && row.videoTitle == v.title
    ensures row.viewers == (if v.concurrentViewers.Some? then v.concurrentViewers.value else 0)
    ensures v.highThumbnail.Some? && v.highThumbnail.value != "" ==> row.thumbnail == v.highThumbnail.value
    ensures !(v.highThumbnail.Some? && v.highThumbnail.value != "") ==> row.thumbnail == v.defaultThumbnail
  {
    LiveRow(v.channelTitle, v.title, v.concurrentViewers.GetOr(0), ThumbnailOf(v), v.id, region)
  }

  function LiveRowsOf(vs: seq<VideoItem>, region: string): (rows: seq<LiveRow>)
    ensures |rows| == |vs|
    ensures forall k :: 0 <= k < |vs| ==> rows[k] == LiveRowOf(vs[k], region)
  {
    seq(|vs|, k requires 0 <= k < |vs| => LiveRowOf(vs[k], region))
  }

  /**
   * The LiveRankings table after one run, and whether it threw. A missing
   * `items` in the details answer throws after the delete has already run.
   */
  function SyncLive(t: seq<LiveRow>, region: string,
                    search: SearchRequest -> Response<string>,
                    videos: VideosRequest -> Response<VideoItem>): (seq<LiveRow>, Outcome)
  {
    match search(SearchFor(region))
    case NetworkError => (t, Threw)
    case Json(found) =>
      if found.None? || |found.value| == 0 then (t, Completed)
      else match videos(VideosRequest(found.value))
        case NetworkError => (t, Threw)
        case Json(None) => (DeleteRegion(t, region), Threw)
        case Json(Some(vs)) => (DeleteRegion(t, region) + LiveRowsOf(vs, region), Completed)
  }

  lemma RegionRowsOfNew(vs: seq<VideoItem>, region: string, other: string)
    ensures RegionRows(LiveRowsOf(vs, region), other) == if other == region then LiveRowsOf(vs, region) else []
    decreases |vs|
  {
    var rows := LiveRowsOf(vs, region);
    if vs != [] {
      RegionRowsOfNew(vs[1..], region, other);
      assert rows[1..] == LiveRowsOf(vs[1..], region);
      assert rows == [rows[0]] + rows[1..];
    }
  }

  /**
   * A run whose search found videos and whose details lookup answered leaves
   * the region with exactly one row per returned video, in order, and every
   * other region's rows as they were.
   */
  lemma SyncLiveReplaces(t: seq<LiveRow>, region: string, other: string,
                         search: SearchRequest -> Response<string>,
                         videos: VideosRequest -> Response<VideoItem>)
    requires search(SearchFor(region)).Json? && search(SearchFor(region)).items.Some?
    requires |search(SearchFor(region)).items.value| > 0
    requires videos(VideosRequest(search(SearchFor(region)).items.value)).Json?
    requires videos(VideosRequest(search(SearchFor(region)).items.value)).items.Some?
    ensures var vs := videos(VideosRequest(search(SearchFor(region)).items.value)).items.value;
            var (r, outcome) := SyncLive(t, region, search, videos);
            && outcome == Completed
            && RegionRows(r, region) == LiveRowsOf(vs, region)
            && (other != region ==> RegionRows(r, other) == RegionRows(t, other))
  {
    var vs := videos(VideosRequest(search(SearchFor(region)).items.value)).items.value;
    RegionRowsAppend(DeleteRegion(t, region), LiveRowsOf(vs, region), region);
    RegionRowsAppend(DeleteRegion(t, region), LiveRowsOf(vs, region), other);
    DeleteRegionRows(t, region, region);
    DeleteRegionRows(t, region, other);
    RegionRowsOfNew(vs, region, region);
    RegionRowsOfNew(vs, region, other);
  }

  /** A search that finds nothing, or whose answer has no items, changes nothing. */
  lemma SyncLiveNoResults(t: seq<LiveRow>, region: string,
                          search: SearchRequest -> Response<string>,
                          videos: VideosRequest -> Response<VideoItem>)
    requires search(SearchFor(region)).Json?
    requires search(SearchFor(region)).items.None? || search(SearchFor(region)).items.value == []
    ensures SyncLive(t, region, search, videos) == (t, Completed)
  {
  }

  /**
   * Two successive runs for a region leave exactly the second run's rows for
   * it: nothing of the first run survives.
   */
  lemma SyncLiveTwice(t: seq<LiveRow>, region: string,
                      search1: SearchRequest -> Response<string>, videos1: VideosRequest -> Response<VideoItem>,
                      search2: SearchRequest -> Response<string>, videos2: VideosRequest -> Response<VideoItem>)
    requires search2(SearchFor(region)).Json? && search2(SearchFor(region)).items.Some?
    requires |search2(SearchFor(region)).items.value| > 0
    requires videos2(VideosRequest(search2(SearchFor(region)).items.value)).Json?
    requires videos2(VideosRequest(search2(SearchFor(region)).items.value)).items.Some?
    ensures var t1 := SyncLive(t, region, search1, videos1).0;
            RegionRows(SyncLive(t1, region, search2, videos2).0, region)
            == LiveRowsOf(videos2(VideosRequest(search2(SearchFor(region)).items.value)).items.value, region)
  {
    SyncLiveReplaces(SyncLive(t, region, search1, videos1).0, region, region, search2, videos2);
  }
}
