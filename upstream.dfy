/**
 * What the handler receives from the YouTube Data API, reduced to the fields
 * it reads. A request the handler makes is a value; the API is a function
 * from requests to responses, passed in as a parameter.
 */
module Upstream {
  import opened Wrappers

  /**
   * `await fetch(...)` followed by `await res.json()`: either one of them
   * rejects (the handler then throws), or the JSON body's `items` field,
   * absent or an array.
   */
  datatype Response<T> = NetworkError | Json(items: Option<seq<T>>)

  /** Whether the handler ran to its end or threw part-way. */
  datatype Outcome = Completed | Threw

  /** `videos?part=snippet&chart=mostPopular&regionCode=R[&videoCategoryId=C]`; "" means no category filter. */
  datatype PopularRequest = PopularRequest(region: string, categoryId: string)

  /** A `videos` item's snippet fields used by discovery. */
  datatype PopularVideo = PopularVideo(channelId: string, channelTitle: string,
                                       categoryId: Option<string>, defaultThumbnail: string)

  /** `channels?part=statistics,snippet&id=<ids joined by commas>`. */
  datatype ChannelsRequest = ChannelsRequest(ids: seq<string>)

  /** A `channels` item; an absent count is None. */
  datatype ChannelItem = ChannelItem(id: string, defaultThumbnail: string,
                                     subscriberCount: Option<nat>, viewCount: Option<nat>)

  /** `search?part=snippet&type=video&eventType=live&regionCode=R&q=Q&relevanceLanguage=L&order=viewCount&maxResults=25`. */
  datatype SearchRequest = SearchRequest(region: string, query: string, language: string)

  /** `videos?part=liveStreamingDetails,snippet&id=<video ids joined by commas>`. */
  datatype VideosRequest = VideosRequest(ids: seq<string>)

  /** A `videos` item with its live-streaming details. */
  datatype VideoItem = VideoItem(id: string, channelTitle: string, title: string,
                                 concurrentViewers: Option<nat>,
                                 highThumbnail: Option<string>, defaultThumbnail: string)
}
